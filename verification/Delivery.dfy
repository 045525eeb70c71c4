/**
 * Delivery between the two cores: how a confirmed publish becomes the LP core's baseline, store by
 * store, and which snapshots the main processor publishes.
 */
module Delivery {
  import opened Words
  import opened LpCore
  import LpSchedule

  type Pair = (real, real)

  // ---- acknowledgements --------------------------------------------------------------------------------

  /** How far the main processor is with storing the newest acknowledgement. */
  datatype Writer = Stored | Confirmed | TempStored | BothStored

  /** How far the LP core is in its block; `seen` is the one value of the counter it read. */
  datatype Consumer = Waiting | CounterRead(seen: uint32) | TempTaken(seen: uint32) | BothTaken(seen: uint32)

  /**
   * The shared acknowledgement fields and the LP core's baseline. The history `acks` starts with the
   * zeroed memory; a field's `…At` is the history entry its value comes from.
   */
  datatype State = State(acks: seq<Pair>, writer: Writer, consumer: Consumer,
                         ackT: real, ackTAt: nat, ackH: real, ackHAt: nat, counter: uint32, counterAt: nat,
                         baseT: real, baseTAt: nat, baseH: real, baseHAt: nat, consumed: uint32, consumedAt: nat,
                         seenAt: nat)

  const ZEROED: State := State([(0.0, 0.0)], Stored, Waiting, 0.0, 0, 0.0, 0, 0, 0, 0.0, 0, 0.0, 0, 0, 0, 0)

  datatype Event = Deliver(pair: Pair) | WriterStores | ConsumerSteps

  function Newest(s: State): (n: int) {
    |s.acks| - 1
  }

  /** The main processor's next store: the values first, the counter last. */
  function WriterStep(s: State): (t: State)
    requires s.acks != []
  {
    match s.writer
    case Stored => s
    case Confirmed => s.(ackT := s.acks[Newest(s)].0, ackTAt := Newest(s), writer := TempStored)
    case TempStored => s.(ackH := s.acks[Newest(s)].1, ackHAt := Newest(s), writer := BothStored)
    case BothStored => s.(counter := Wrap32(s.counter + 1), counterAt := s.counterAt + 1, writer := Stored)
  }

  /** The LP core's next load and store of its block. */
  function ConsumerStep(s: State): (t: State) {
    match s.consumer
    case Waiting => if s.counter != s.consumed then s.(consumer := CounterRead(s.counter), seenAt := s.counterAt) else s
    case CounterRead(c) => s.(baseT := s.ackT, baseTAt := s.ackTAt, consumer := TempTaken(c))
    case TempTaken(c) => s.(baseH := s.ackH, baseHAt := s.ackHAt, consumer := BothTaken(c))
    case BothTaken(c) => s.(consumed := c, consumedAt := s.seenAt, consumer := Waiting)
  }

  /** A new delivery is confirmed only when the one before has been stored; the main processor writes alone. */
  function Step(s: State, e: Event): (t: State)
    requires s.acks != []
    ensures t.acks != []
  {
    match e
    case Deliver(pair) => if s.writer.Stored? then s.(acks := s.acks + [pair], writer := Confirmed) else s
    case WriterStores => WriterStep(s)
    case ConsumerSteps => ConsumerStep(s)
  }

  function Run(s: State, events: seq<Event>): (t: State)
    requires s.acks != []
    ensures t.acks != []
  {
    if events == [] then s else Step(Run(s, events[..|events| - 1]), events[|events| - 1])
  }

  /** The acknowledgement fields hold what the writer's progress says. */
  ghost predicate Written(s: State) {
    var n := Newest(s);
    && s.acks != [] && s.acks[0] == (0.0, 0.0)
    && (s.writer.Stored? ==> s.ackTAt == s.ackHAt == s.counterAt == n)
    && (s.writer.Confirmed? ==> n > 0 && s.ackTAt == s.ackHAt == s.counterAt == n - 1)
    && (s.writer.TempStored? ==> n > 0 && s.ackTAt == n && s.ackHAt == s.counterAt == n - 1)
    && (s.writer.BothStored? ==> n > 0 && s.ackTAt == s.ackHAt == n && s.counterAt == n - 1)
    && s.ackT == s.acks[s.ackTAt].0 && s.ackH == s.acks[s.ackHAt].1 && s.counter == Wrap32(s.counterAt)
  }

  /** The baseline's components come from the history, none older than the recorded counter. */
  ghost predicate Taken(s: State) {
    && s.consumedAt <= s.baseTAt < |s.acks| && s.consumedAt <= s.baseHAt < |s.acks|
    && s.consumedAt <= s.counterAt && s.consumed == Wrap32(s.consumedAt)
    && s.baseT == s.acks[s.baseTAt].0 && s.baseH == s.acks[s.baseHAt].1
    && (!s.consumer.Waiting? ==> s.consumer.seen == Wrap32(s.seenAt) && s.consumedAt <= s.seenAt <= s.counterAt)
    && (s.consumer.TempTaken? || s.consumer.BothTaken? ==> s.seenAt <= s.baseTAt)
    && (s.consumer.BothTaken? ==> s.seenAt <= s.baseHAt)
  }

  lemma StepKeeps(s: State, e: Event)
    requires Written(s) && Taken(s)
    ensures Written(Step(s, e)) && Taken(Step(s, e))
  {
    if e.WriterStores? && s.writer.BothStored? {
      WrapSum(s.counterAt, 1);
    }
  }

  /**
   * In every interleaving of deliveries, stores and loads, each component of the baseline is the
   * initial zero or part of a confirmed delivery, and the recorded counter is never paired with a
   * component older than its acknowledgement.
   */
  lemma {:induction false} BaselineIsConfirmed(events: seq<Event>)
    ensures var s := Run(ZEROED, events);
            && Written(s) && Taken(s)
            && (exists k :: 0 <= k < |s.acks| && s.baseT == s.acks[k].0)
            && (exists k :: 0 <= k < |s.acks| && s.baseH == s.acks[k].1)
            && s.consumedAt <= s.baseTAt && s.consumedAt <= s.baseHAt
  {
    if events != [] {
      BaselineIsConfirmed(events[..|events| - 1]);
      StepKeeps(Run(ZEROED, events[..|events| - 1]), events[|events| - 1]);
    }
  }

  /** One whole block of the LP core without a store in between. */
  function Consumption(s: State): (t: State) {
    if s.counter == s.consumed then s else ConsumerStep(ConsumerStep(ConsumerStep(ConsumerStep(s))))
  }

  /**
   * With no store in flight, the baseline after the block is the newest confirmed pair, as long as
   * fewer than 2^32 acknowledgements came since the last one consumed.
   */
  lemma QuietConsumptionIsNewest(s: State)
    requires Written(s) && Taken(s) && s.writer.Stored? && s.consumer.Waiting?
    requires s.counterAt - s.consumedAt < 0x1_0000_0000
    ensures var t := Consumption(s);
            t.consumer.Waiting? && (t.baseT, t.baseH) == s.acks[Newest(s)] && t.consumedAt == Newest(s)
            && t.consumed == s.counter
  {
    WrapInjective(s.consumedAt, s.counterAt);
  }

  /** After a mixed pair the counter still differs, so the next block takes the newer pair whole. */
  lemma MixIsTemporary(s: State)
    requires Written(s) && Taken(s) && s.consumer.Waiting? && s.writer.Stored?
    requires s.counterAt - s.consumedAt < 0x1_0000_0000
    ensures s.baseTAt != s.baseHAt ==> s.counter != s.consumed
  {
    WrapInjective(s.consumedAt, s.counterAt);
  }

  /** The last step of a block that reads the counter a second time to record it. */
  function RecordReread(s: State): (t: State) {
    s.(consumed := s.counter, consumedAt := s.counterAt, consumer := Waiting)
  }

  /** A delivery confirmed and stored without the LP core running in between. */
  function Stage(s: State, pair: Pair): (t: State)
    requires s.acks != []
    ensures t.acks != []
  {
    Step(Step(Step(Step(s, Deliver(pair)), WriterStores), WriterStores), WriterStores)
  }

  /** The first three steps of the LP core's block. */
  function TakeBoth(s: State): (t: State)
    requires s.acks != []
    ensures t.acks != []
  {
    Step(Step(Step(s, ConsumerSteps), ConsumerSteps), ConsumerSteps)
  }

  /**
   * Reading the counter a second time would not do: an acknowledgement that lands between the two
   * reads would be recorded with the components of the one before, and never be taken. Recording the
   * value that was read, the next block takes it.
   */
  lemma SecondReadLosesAck(first: Pair, second: Pair)
    requires first != second
    ensures var s := Stage(TakeBoth(Stage(ZEROED, first)), second);
            && s.consumer.BothTaken? && s.acks[Newest(s)] == second
            && (RecordReread(s).baseT, RecordReread(s).baseH) == first
            && Consumption(RecordReread(s)) == RecordReread(s)
            && (Consumption(ConsumerStep(s)).baseT, Consumption(ConsumerStep(s)).baseH) == second
  {
    var one := Stage(ZEROED, first);
    assert one.ackT == first.0 && one.ackH == first.1 && one.counter == 1 && one.writer.Stored?;
    var taken := TakeBoth(one);
    assert taken.consumer == BothTaken(1) && (taken.baseT, taken.baseH) == first;
    var s := Stage(taken, second);
    assert s.ackT == second.0 && s.ackH == second.1 && s.counter == 2;
  }

  // ---- which snapshots are published -----------------------------------------------------------------------

  /** A wake publishes live exactly if the LP core ran since the last one and its flag is set. */
  predicate Actionable(lastSeen: uint32, heartbeat: uint32, wake: bool) {
    Wrap32(heartbeat - lastSeen) > 0 && wake
  }

  lemma ActionableIff(lastSeen: uint32, heartbeat: uint32, wake: bool)
    ensures Actionable(lastSeen, heartbeat, wake) <==> heartbeat != lastSeen && wake
  {
  }

  /** What a wake acts on of the snapshot it read. */
  datatype Snapshot = Snapshot(heartbeat: uint32, wake: bool)

  /** The heartbeat remembered when snapshot `i` is serviced. */
  function LastSeen(snaps: seq<Snapshot>, i: nat): (h: uint32)
    requires i <= |snaps|
  {
    if i == 0 then 0 else snaps[i - 1].heartbeat
  }

  predicate Publishes(snaps: seq<Snapshot>, i: nat)
    requires i < |snaps|
  {
    Actionable(LastSeen(snaps, i), snaps[i].heartbeat, snaps[i].wake)
  }

  /** A moment at which the LP core's memory is stable: after invocation `b`, or while its heater is on. */
  datatype Point = Final(b: nat) | Mid(b: nat)

  /**
   * One read of the main processor: a clean one at a stable point, or one whose attempts all fell into
   * the locked window that opens after that point, and which leaves the caller's zeroed structure.
   */
  datatype Look = At(point: Point) | Torn(point: Point)

  const LOADED: Lp := Lp(0, Report(Status(0, false, 0), Values(0.0, 0.0, 0.0, 0.0),
                                   Heater(0, 0, false, 0, 0.0, false, 0), false), Baseline(0.0, 0.0, 0), 0)

  /** The memory after the first `b` invocations from loading the program on. */
  function After(polls: seq<Inputs>, b: nat): (s: Lp)
    requires b <= |polls|
  {
    LpSchedule.Run(LOADED, polls[..b])
  }

  predicate Reached(polls: seq<Inputs>, p: Point) {
    p.b <= |polls| && (p.Mid? ==> p.b > 0 && HeaterRuns(After(polls, p.b - 1), polls[p.b - 1]))
  }

  function ReportAt(polls: seq<Inputs>, p: Point): (r: Report)
    requires Reached(polls, p)
  {
    match p
    case Final(b) => After(polls, b).report
    case Mid(b) =>
      var before := After(polls, b - 1).report;
      MidHeater(before, NextStatus(before.status, true), polls[b - 1])
  }

  lemma AfterStep(polls: seq<Inputs>, b: nat)
    requires b < |polls|
    ensures After(polls, b + 1) == Cycle(After(polls, b), polls[b])
  {
    assert polls[..b + 1][..b] == polls[..b];
  }

  /** These are the points at which LpCore.LpProgram.Poll leaves the memory readable. */
  lemma PointsOfPoll(polls: seq<Inputs>, b: nat, r: Report)
    requires b < |polls| && r in StablePoints(After(polls, b), polls[b])
    ensures exists p: Point :: p in {Final(b), Mid(b + 1), Final(b + 1)} && Reached(polls, p) && ReportAt(polls, p) == r
  {
    AfterStep(polls, b);
    if r == After(polls, b).report {
      assert ReportAt(polls, Final(b)) == r;
    } else if r == Cycle(After(polls, b), polls[b]).report {
      assert ReportAt(polls, Final(b + 1)) == r;
    } else {
      assert Reached(polls, Mid(b + 1)) && ReportAt(polls, Mid(b + 1)) == r;
    }
  }

  /** Points and the windows after them, in the order of time. */
  function When(look: Look): (n: int) {
    (if look.Torn? then 1 else 0) + if look.point.Mid? then 4 * look.point.b - 2 else 4 * look.point.b
  }

  ghost predicate Ordered(looks: seq<Look>) {
    forall m: nat, n: nat :: m < n < |looks| ==> When(looks[m]) <= When(looks[n])
  }

  /** Successive reads of one run of the LP core, which is shorter than 2^32 invocations. */
  ghost predicate Watched(polls: seq<Inputs>, looks: seq<Look>) {
    && |polls| < 0x1_0000_0000 && Ordered(looks)
    && forall n: nat :: n < |looks| ==> Reached(polls, looks[n].point)
  }

  function SnapshotOf(polls: seq<Inputs>, look: Look): (s: Snapshot)
    requires Reached(polls, look.point)
  {
    if look.Torn? then Snapshot(0, false)
    else Snapshot(ReportAt(polls, look.point).status.heartbeat, ReportAt(polls, look.point).wake)
  }

  ghost function Snapshots(polls: seq<Inputs>, looks: seq<Look>): (snaps: seq<Snapshot>)
    requires Watched(polls, looks)
    ensures |snaps| == |looks|
  {
    seq(|looks|, n requires 0 <= n < |looks| => SnapshotOf(polls, looks[n]))
  }

  ghost predicate Published(polls: seq<Inputs>, looks: seq<Look>, n: nat)
    requires Watched(polls, looks) && n < |looks|
  {
    Publishes(Snapshots(polls, looks), n)
  }

  lemma CycleCounts(s: Lp, i: Inputs)
    requires s.report.status.heartbeat < 0xffff_ffff
    ensures Cycle(s, i).report.status.heartbeat == s.report.status.heartbeat + 1
  {
  }

  lemma {:induction false} HeartbeatCounts(polls: seq<Inputs>, b: nat)
    requires b <= |polls| < 0x1_0000_0000
    ensures After(polls, b).report.status.heartbeat == b
  {
    if b == 0 {
      assert polls[..0] == [];
    } else {
      HeartbeatCounts(polls, b - 1);
      CountStep(polls, b - 1);
    }
  }

  lemma CountStep(polls: seq<Inputs>, b: nat)
    requires b < |polls| < 0x1_0000_0000 && After(polls, b).report.status.heartbeat == b
    ensures After(polls, b + 1).report.status.heartbeat == b + 1
  {
    AfterStep(polls, b);
    CycleCounts(After(polls, b), polls[b]);
  }

  lemma MidCounts(r: Report, i: Inputs)
    requires i.reading.Some? && r.status.heartbeat < 0xffff_ffff
    ensures MidHeater(r, NextStatus(r.status, true), i).status.heartbeat == r.status.heartbeat + 1
  {
  }

  lemma BeatAt(polls: seq<Inputs>, p: Point)
    requires Reached(polls, p) && |polls| < 0x1_0000_0000
    ensures ReportAt(polls, p).status.heartbeat == p.b
  {
    if p.Mid? {
      HeartbeatCounts(polls, p.b - 1);
      MidCounts(After(polls, p.b - 1).report, polls[p.b - 1]);
    } else {
      HeartbeatCounts(polls, p.b);
    }
  }

  lemma FlaggedRan(polls: seq<Inputs>, p: Point)
    requires Reached(polls, p) && ReportAt(polls, p).wake
    ensures p.b > 0
  {
    assert polls[..0] == [];
  }

  /** A read publishes exactly if it is clean, flagged, and not preceded by a clean one of the same invocation. */
  lemma PublishedIff(polls: seq<Inputs>, looks: seq<Look>, n: nat)
    requires Watched(polls, looks) && n < |looks|
    ensures Published(polls, looks, n)
            <==> looks[n].At? && ReportAt(polls, looks[n].point).wake
                 && (n == 0 || looks[n - 1].Torn? || looks[n - 1].point.b != looks[n].point.b)
  {
    var snaps := Snapshots(polls, looks);
    ActionableIff(LastSeen(snaps, n), snaps[n].heartbeat, snaps[n].wake);
    SnapshotReads(polls, looks[n]);
    if n > 0 {
      SnapshotReads(polls, looks[n - 1]);
    }
  }

  lemma SnapshotReads(polls: seq<Inputs>, look: Look)
    requires Reached(polls, look.point) && |polls| < 0x1_0000_0000
    ensures var s := SnapshotOf(polls, look);
            && s.heartbeat == (if look.Torn? then 0 else look.point.b)
            && s.wake == (look.At? && ReportAt(polls, look.point).wake) && (s.wake ==> s.heartbeat > 0)
  {
    if look.At? {
      BeatAt(polls, look.point);
      if ReportAt(polls, look.point).wake {
        FlaggedRan(polls, look.point);
      }
    }
  }

  /**
   * One invocation's heartbeat is published twice exactly if a wake published the snapshot of its running
   * heater, the last wake before the second publish read nothing in the window that follows it, and the
   * second then found the invocation finished and flagged.
   */
  lemma BeatTwiceIff(polls: seq<Inputs>, looks: seq<Look>, m: nat, n: nat)
    requires Watched(polls, looks) && m < n < |looks|
    ensures var b := looks[m].point.b;
            Published(polls, looks, m) && Published(polls, looks, n) && looks[n].point.b == b
            <==> Published(polls, looks, m) && looks[m] == At(Mid(b)) && looks[n - 1] == Torn(Mid(b))
                 && looks[n] == At(Final(b)) && After(polls, b).report.wake
  {
    PublishedIff(polls, looks, m);
    PublishedIff(polls, looks, n);
    assert When(looks[m]) <= When(looks[n]);
    assert When(looks[n - 1]) <= When(looks[n]);
    assert m < n - 1 ==> When(looks[m]) <= When(looks[n - 1]);
  }

  /** The invocation whose values and flag a point shows: a running heater shows those of the one before. */
  function Shown(p: Point): (b: int) {
    if p.Mid? then p.b - 1 else p.b
  }

  lemma FlagShown(polls: seq<Inputs>, p: Point)
    requires Reached(polls, p)
    ensures ReportAt(polls, p).wake == After(polls, Shown(p)).report.wake
    ensures PairOf(ReportAt(polls, p)) == PairOf(After(polls, Shown(p)).report)
  {
  }

  function PairOf(r: Report): (p: Pair) {
    (r.values.calT, r.values.calH)
  }

  /** The invocation that read and calibrated the values that invocation `b` shows. */
  function Source(polls: seq<Inputs>, b: nat): (k: nat)
    requires b <= |polls|
    ensures k <= b
  {
    if b == 0 || polls[b - 1].reading.Some? then b else Source(polls, b - 1)
  }

  /** A failed reading leaves the values alone. */
  lemma {:induction false} ValuesOfSource(polls: seq<Inputs>, b: nat)
    requires b <= |polls|
    ensures PairOf(After(polls, b).report) == PairOf(After(polls, Source(polls, b)).report)
  {
    if b > 0 {
      AfterStep(polls, b - 1);
      ValuesOfSource(polls, b - 1);
    }
  }

  function SourceAt(polls: seq<Inputs>, p: Point): (k: nat)
    requires Reached(polls, p)
  {
    Source(polls, Shown(p))
  }

  lemma PublishedValues(polls: seq<Inputs>, p: Point)
    requires Reached(polls, p)
    ensures PairOf(ReportAt(polls, p)) == PairOf(After(polls, SourceAt(polls, p)).report)
  {
    FlagShown(polls, p);
    ValuesOfSource(polls, Shown(p));
  }

  lemma {:induction false} SourceBetween(polls: seq<Inputs>, a: nat, b: nat, k: nat)
    requires a < k <= b <= |polls| && Source(polls, a) == Source(polls, b)
    ensures polls[k - 1].reading.None? && Source(polls, b - 1) == Source(polls, a)
    decreases b
  {
    if k < b {
      SourceBetween(polls, a, b - 1, k);
    }
  }

  /** Of failed readings in a row only the first is flagged. */
  lemma FaultFlaggedOnce(polls: seq<Inputs>, b: nat)
    requires 1 < b <= |polls| && polls[b - 1].reading.None? && polls[b - 2].reading.None?
    ensures !After(polls, b).report.wake
  {
    AfterStep(polls, b - 1);
    AfterStep(polls, b - 2);
  }

  /** Two flagged points show values of one source only as the invocation itself, its fault, or a running heater. */
  predicate Repeats(polls: seq<Inputs>, p: Point, q: Point)
    requires Reached(polls, q)
  {
    && p.Final?
    && (q == Mid(p.b + 1)
        || (p.b < q.b && polls[p.b].reading.None? && (q == Final(p.b + 1) || q == Mid(p.b + 2))))
  }

  lemma FlaggedRepeat(polls: seq<Inputs>, p: Point, q: Point)
    requires Reached(polls, p) && Reached(polls, q) && When(At(p)) < When(At(q)) && ReportAt(polls, q).wake
    ensures SourceAt(polls, p) == SourceAt(polls, q) <==> Repeats(polls, p, q)
  {
    var a, b := Shown(p), Shown(q);
    if a < b && SourceAt(polls, p) == SourceAt(polls, q) {
      SourceBetween(polls, a, b, a + 1);
      SourceBetween(polls, a, b, b);
      FlagShown(polls, q);
      if a + 1 < b {
        SourceBetween(polls, a, b, b - 1);
        FaultFlaggedOnce(polls, b);
      }
    }
  }

  /**
   * Two publishes carry the values of one and the same reading exactly if the first reads the invocation
   * finished and the second reads the heater running in the one after, or else the one after failed and
   * the second reads its fault or the heater running in the next.
   */
  lemma ValuesTwiceIff(polls: seq<Inputs>, looks: seq<Look>, m: nat, n: nat)
    requires Watched(polls, looks) && m < n < |looks| && Published(polls, looks, m) && Published(polls, looks, n)
    ensures var p, q := looks[m].point, looks[n].point;
            && (SourceAt(polls, p) == SourceAt(polls, q) <==> Repeats(polls, p, q))
            && PairOf(ReportAt(polls, p)) == PairOf(After(polls, SourceAt(polls, p)).report)
            && PairOf(ReportAt(polls, q)) == PairOf(After(polls, SourceAt(polls, q)).report)
  {
    PublishedValues(polls, looks[m].point);
    PublishedValues(polls, looks[n].point);
    LaterPoint(polls, looks, m, n);
    PublishedIff(polls, looks, n);
    FlaggedRepeat(polls, looks[m].point, looks[n].point);
  }

  lemma LaterPoint(polls: seq<Inputs>, looks: seq<Look>, m: nat, n: nat)
    requires Watched(polls, looks) && m < n < |looks| && Published(polls, looks, m) && Published(polls, looks, n)
    ensures looks[m].At? && looks[n].At? && When(looks[m]) < When(looks[n])
  {
    PublishedIff(polls, looks, m);
    PublishedIff(polls, looks, n);
    assert When(looks[m]) <= When(looks[n - 1]) || m == n - 1;
    assert When(looks[n - 1]) <= When(looks[n]);
  }

  /** So where no heater runs and no reading fails, nothing is published twice, whatever the wakes and the reads. */
  lemma NeverTwice(polls: seq<Inputs>, looks: seq<Look>, m: nat, n: nat)
    requires Watched(polls, looks) && m < n < |looks| && Published(polls, looks, m) && Published(polls, looks, n)
    requires forall b: nat :: b < |polls| ==> polls[b].reading.Some? && !HeaterRuns(After(polls, b), polls[b])
    ensures looks[m].point.b < looks[n].point.b
    ensures SourceAt(polls, looks[m].point) != SourceAt(polls, looks[n].point)
  {
    LaterPoint(polls, looks, m, n);
    assert Reached(polls, looks[m].point) && Reached(polls, looks[n].point);
    ValuesTwiceIff(polls, looks, m, n);
  }

  /** An invocation that flags whatever it reads, with the heater on in every second one. */
  function Flagging(reading: Option<Reading>): (i: Inputs) {
    Inputs(Ack(0, 0.0, 0.0), Config(0.0, 0.0, 0.0, 0.0, 0.0, 0, 2, 2, 0, 0), reading, None)
  }

  const TWO_GOOD: seq<Inputs> := [Flagging(Some(Reading(20.0, 50.0))), Flagging(Some(Reading(21.0, 50.0)))]
  const THEN_FAULT: seq<Inputs> := [Flagging(Some(Reading(20.0, 50.0))), Flagging(None)]

  lemma TwoGood()
    ensures After(TWO_GOOD, 1).report.wake && After(TWO_GOOD, 2).report.wake && Reached(TWO_GOOD, Mid(2))
  {
    assert TWO_GOOD[..0] == [];
    AfterStep(TWO_GOOD, 0);
    AfterStep(TWO_GOOD, 1);
  }

  /** A heartbeat published twice: while the heater ran, a torn read, and when it had finished. */
  lemma BeatTwiceHappens()
    ensures var looks := [At(Mid(2)), Torn(Mid(2)), At(Final(2))];
            Watched(TWO_GOOD, looks) && Published(TWO_GOOD, looks, 0) && Published(TWO_GOOD, looks, 2)
  {
    TwoGood();
    var looks := [At(Mid(2)), Torn(Mid(2)), At(Final(2))];
    PublishedIff(TWO_GOOD, looks, 0);
    PublishedIff(TWO_GOOD, looks, 2);
  }

  /** A reading published twice: when its invocation had finished, and while the heater of the next one runs. */
  lemma ValuesTwiceHappens()
    ensures var looks := [At(Final(1)), At(Mid(2))];
            Watched(TWO_GOOD, looks) && Published(TWO_GOOD, looks, 0) && Published(TWO_GOOD, looks, 1)
            && SourceAt(TWO_GOOD, Final(1)) == SourceAt(TWO_GOOD, Mid(2))
  {
    TwoGood();
    var looks := [At(Final(1)), At(Mid(2))];
    PublishedIff(TWO_GOOD, looks, 0);
    PublishedIff(TWO_GOOD, looks, 1);
  }

  /** And without a heater: the fault after a reading is published with that reading's values. */
  lemma FaultRepeats()
    ensures var looks := [At(Final(1)), At(Final(2))];
            Watched(THEN_FAULT, looks) && Published(THEN_FAULT, looks, 0) && Published(THEN_FAULT, looks, 1)
            && SourceAt(THEN_FAULT, Final(1)) == SourceAt(THEN_FAULT, Final(2))
  {
    assert THEN_FAULT[..0] == [];
    AfterStep(THEN_FAULT, 0);
    AfterStep(THEN_FAULT, 1);
    var looks := [At(Final(1)), At(Final(2))];
    PublishedIff(THEN_FAULT, looks, 0);
    PublishedIff(THEN_FAULT, looks, 1);
  }

  /**
   * A wake that reads the snapshot published while the heater runs: it publishes exactly if the
   * invocation before was flagged, then with that invocation's values; and the flag that the
   * invocation ends with is not acted on any more, because its heartbeat is already known.
   */
  lemma HeaterSnapshot(s: Lp, i: Inputs)
    requires HeaterRuns(s, i) && i.ack.seqNo == s.consumed
    ensures var mid := MidHeater(s.report, NextStatus(s.report.status, true), i);
            var end := Cycle(s, i).report;
            && mid.status.heartbeat == end.status.heartbeat
            && (Actionable(s.report.status.heartbeat, mid.status.heartbeat, mid.wake) <==> s.report.wake)
            && (mid.values.calT, mid.values.calH) == (s.report.values.calT, s.report.values.calH)
            && !Actionable(mid.status.heartbeat, end.status.heartbeat, end.wake)
            && (Actionable(s.report.status.heartbeat, end.status.heartbeat, end.wake) <==> end.wake)
  {
    WrapDifference(s.report.status.heartbeat + 1, s.report.status.heartbeat);
    assert Wrap32(s.report.status.heartbeat) == s.report.status.heartbeat;
  }
}
