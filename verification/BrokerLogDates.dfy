/**
 * The dates that tools/mqtt_broker_log.py recovers for raw lines that carry only a time of day. UTC
 * instants are milliseconds, broker timestamps are local seconds.
 */
module BrokerLogDates {

  const DAY: int := 86400000
  const HALF_DAY: int := 43200000
  const DAY_SEC: int := 86400

  datatype Option<T> = None | Some(value: T)

  datatype Line =
    | Iso(at: int, rest: string)
    | TimeOnly(tod: int, rest: string)
    | BrokerLine(tod: int, local: int, rest: string)
    | Unmatched

  datatype Event = Event(at: int, rest: string)

  // ---- one broker line ---------------------------------------------------------------------------------

  /** Whole hours, rounded as Python's round() does: a tie goes to the even one. */
  function RoundHours(sec: int): (h: int) {
    var q, r := sec / 3600, sec % 3600;
    if r < 1800 || (r == 1800 && q % 2 == 0) then q else q + 1
  }

  function OffsetHours(tod: int, local: int): (h: int) {
    var skew := local % DAY_SEC - tod / 1000;
    var h := RoundHours(skew % DAY_SEC) % 24;
    if h > 12 then h - 24 else h
  }

  /** The instant that a broker line anchors: its time of day on the date next to the broker's estimate. */
  function AnchorOf(tod: int, local: int): (at: int) {
    var est := (local - 3600 * OffsetHours(tod, local)) * 1000;
    var cand := est / DAY * DAY + tod;
    if cand - est > HALF_DAY then cand - DAY else if est - cand > HALF_DAY then cand + DAY else cand
  }

  /** Broker local time is ahead of the receive time by hours that the code can tell from their remainder. */
  predicate ZoneInRange(at: int, local: int) {
    -11 <= RoundHours(local - at / 1000) <= 12
  }

  /** The hour is the nearest one, and the even one of two that are equally near. */
  lemma RoundClose(x: int)
    ensures -1800 <= x - 3600 * RoundHours(x) <= 1800
    ensures x - 3600 * RoundHours(x) == 1800 || x - 3600 * RoundHours(x) == -1800 ==> RoundHours(x) % 2 == 0
  {
  }

  lemma SameParity(q: int, j: int)
    ensures (q + 24 * j) % 2 == q % 2
  {
  }

  lemma RoundPeriodic(x: int, j: int)
    ensures RoundHours(x + DAY_SEC * j) == RoundHours(x) + 24 * j
  {
    var q, r := x / 3600, x % 3600;
    DivisionIs(x + DAY_SEC * j, 3600, q + 24 * j, r);
    SameParity(q, j);
  }

  lemma SmallMultiple(b: int, d: int)
    requires -b < b * d < b
    ensures d == 0
  {
  }

  lemma DivisionIs(a: int, b: int, q: int, r: int)
    requires b > 0 && a == q * b + r && 0 <= r < b
    ensures a / b == q && a % b == r
  {
    var d := a / b - q;
    assert b * d == r - a % b;
    SmallMultiple(b, d);
  }

  /** Remainders by 24 in -11 to 12. */
  lemma HoursOfDay(h: int)
    ensures var r := h % 24; var s := if r > 12 then r - 24 else r; (s == h <==> -11 <= h <= 12) && (h - s) % 24 == 0
  {
  }

  lemma OffsetIs(at: int, tod: int, local: int)
    requires tod == at % DAY
    ensures var z := RoundHours(local - at / 1000);
            && (OffsetHours(tod, local) == z <==> -11 <= z <= 12)
            && (z - OffsetHours(tod, local)) % 24 == 0
  {
    var sec := at / 1000;
    var skew := local % DAY_SEC - tod / 1000;
    SecondsOfDay(at);
    var j := local / DAY_SEC - at / DAY;
    assert local - sec == skew + DAY_SEC * j;
    var k := skew / DAY_SEC;
    assert skew == skew % DAY_SEC + DAY_SEC * k;
    RoundPeriodic(skew % DAY_SEC, j + k);
    assert local - sec == skew % DAY_SEC + DAY_SEC * (j + k);
    var z := RoundHours(local - sec);
    SameHour(RoundHours(skew % DAY_SEC), j + k);
    HoursOfDay(z);
  }

  lemma SameHour(h: int, j: int)
    ensures (h + 24 * j) % 24 == h % 24
  {
  }

  lemma SecondsOfDay(at: int)
    ensures at / 1000 == at / DAY * DAY_SEC + at % DAY / 1000
  {
  }

  /** An instant whose time of day is known is the one nearest to an estimate that is less than half a day off. */
  lemma NearestDate(at: int, est: int, k: int)
    requires -HALF_DAY < at + DAY * k - est < HALF_DAY
    ensures var cand := est / DAY * DAY + at % DAY;
            (if cand - est > HALF_DAY then cand - DAY else if est - cand > HALF_DAY then cand + DAY else cand)
            == at + DAY * k
  {
  }

  /** A broker line dates itself rightly exactly if the zone is in range; the lag counts towards the zone. */
  lemma AnchorExact(at: int, tod: int, local: int)
    requires tod == at % DAY
    ensures AnchorOf(tod, local) == at <==> ZoneInRange(at, local)
  {
    var z, h := RoundHours(local - at / 1000), OffsetHours(tod, local);
    var k := (z - h) / 24;
    OffsetIs(at, tod, local);
    RoundClose(local - at / 1000);
    var est := (local - 3600 * h) * 1000;
    assert z - h == 24 * k;
    NearestDate(at, est, k);
  }

  /** A zone of whole hours from -11 to +12 and a lag of less than half an hour are in range. */
  lemma WholeHourZone(at: int, hours: int, lag: int)
    requires -11 <= hours <= 12 && 0 <= lag < 1800
    ensures ZoneInRange(at, at / 1000 - lag + 3600 * hours)
  {
    RoundClose(3600 * hours - lag);
  }

  // ---- lines between broker lines ---------------------------------------------------------------------------

  /** A time-only line on the day of the line before, or on the next if it would be more than half a day back. */
  function NextInstant(prev: int, tod: int): (at: int) {
    var dt := prev / DAY * DAY + tod;
    if prev - dt > HALF_DAY then dt + DAY else dt
  }

  /** A time-only line before the one at `next`: the same day, or the day before if more than half a day ahead. */
  function PreviousInstant(next: int, tod: int): (at: int) {
    var dt := next / DAY * DAY + tod;
    if tod > next % DAY && tod - next % DAY > HALF_DAY then dt - DAY else dt
  }

  /**
   * Walking forward is right exactly if no midnight lies between the lines, or one does and they are
   * less than half a day apart.
   */
  lemma NextExact(prev: int, at: int)
    requires prev <= at
    ensures NextInstant(prev, at % DAY) == at
            <==> at / DAY == prev / DAY || (at / DAY == prev / DAY + 1 && at - prev < HALF_DAY)
  {
  }

  lemma PreviousExact(at: int, next: int)
    requires at <= next
    ensures PreviousInstant(next, at % DAY) == at
            <==> at / DAY == next / DAY || (at / DAY == next / DAY - 1 && next - at < HALF_DAY)
  {
  }

  // ---- the file -----------------------------------------------------------------------------------------------

  /** A line as it was received at instant `at`. */
  ghost predicate ReceivedAt(line: Line, at: int) {
    match line
    case Iso(stamp, _) => stamp == at
    case TimeOnly(tod, _) => tod == at % DAY
    case BrokerLine(tod, local, _) => tod == at % DAY && ZoneInRange(at, local)
    case Unmatched => true
  }

  predicate Legacy(line: Line) {
    line.TimeOnly? || line.BrokerLine?
  }

  /** The time-only lines, in order, at the instants they were received. */
  ghost function TimeOnlyEvents(lines: seq<Line>, truth: seq<int>): (es: seq<Event>)
    requires |lines| == |truth|
  {
    if lines == [] then []
    else
      var n := |lines| - 1;
      TimeOnlyEvents(lines[..n], truth[..n])
      + if lines[n].TimeOnly? then [Event(truth[n], lines[n].rest)] else []
  }

  ghost function IsoEvents(lines: seq<Line>, truth: seq<int>): (es: seq<Event>)
    requires |lines| == |truth|
  {
    if lines == [] then []
    else
      var n := |lines| - 1;
      IsoEvents(lines[..n], truth[..n]) + if lines[n].Iso? then [Event(truth[n], lines[n].rest)] else []
  }

  /**
   * All lines that carry a time, at the instants they were received, in the order of the file; only the
   * time-only lines before the first broker line follow the dated ones before it.
   */
  ghost function Expected(lines: seq<Line>, truth: seq<int>): (es: seq<Event>)
    requires |lines| == |truth|
  {
    if lines == [] then []
    else
      var n := |lines| - 1;
      if !Anchored(lines[..n]) then
        IsoEvents(lines[..n], truth[..n])
        + (match lines[n]
           case Iso(_, rest) => [Event(truth[n], rest)]
           case BrokerLine(_, _, rest) => TimeOnlyEvents(lines[..n], truth[..n]) + [Event(truth[n], rest)]
           case _ => [])
      else
        Expected(lines[..n], truth[..n]) + if lines[n].Unmatched? then [] else [Event(truth[n], lines[n].rest)]
  }

  predicate Anchored(lines: seq<Line>) {
    exists i :: 0 <= i < |lines| && lines[i].BrokerLine?
  }

  /** The instant of the last line that carries only a time. */
  ghost function LastLegacy(lines: seq<Line>, truth: seq<int>): (at: int)
    requires |lines| == |truth|
  {
    if lines == [] then 0
    else
      var n := |lines| - 1;
      if Legacy(lines[n]) then truth[n] else LastLegacy(lines[..n], truth[..n])
  }

  ghost predicate HasLegacy(lines: seq<Line>) {
    exists i :: 0 <= i < |lines| && Legacy(lines[i])
  }

  /**
   * What the recovery relies on: each line as received, and every time-only line less than half a day
   * from the legacy line before it. A broker line needs that only while it is the first.
   */
  ghost predicate Recoverable(lines: seq<Line>, truth: seq<int>) {
    |lines| == |truth| && forall i :: 0 <= i < |lines| ==> RecoverableAt(lines, truth, i)
  }

  ghost predicate RecoverableAt(lines: seq<Line>, truth: seq<int>, i: int)
    requires |lines| == |truth| && 0 <= i < |lines|
  {
    && ReceivedAt(lines[i], truth[i])
    && (HasLegacy(lines[..i]) && (lines[i].TimeOnly? || (lines[i].BrokerLine? && !Anchored(lines[..i])))
        ==> 0 <= truth[i] - LastLegacy(lines[..i], truth[..i]) < HALF_DAY)
  }

  datatype Pending = Pending(tod: int, rest: string)

  /** The events of pending lines, newest first, walking back from `next`. */
  method BackDate(pending: seq<Pending>, next: int, ghost truth: seq<int>) returns (events: seq<Event>)
    requires |truth| == |pending| && forall i :: 0 <= i < |pending| ==> pending[i].tod == truth[i] % DAY
    requires forall i :: 0 < i < |truth| ==> 0 <= truth[i] - truth[i - 1] < HALF_DAY
    requires truth != [] ==> 0 <= next - truth[|truth| - 1] < HALF_DAY
    ensures |events| == |pending|
    ensures forall i :: 0 <= i < |events| ==> events[i] == Event(truth[i], pending[i].rest)
  {
    events := [];
    var day, nxt, k := next / DAY, next % DAY, |pending|;
    while k > 0
      invariant 0 <= k <= |pending| && |events| == |pending| - k
      invariant forall i :: 0 <= i < |events| ==> events[i] == Event(truth[k + i], pending[k + i].rest)
      invariant day * DAY + nxt == if k == |pending| then next else truth[k]
      invariant 0 <= nxt < DAY
    {
      k := k - 1;
      PreviousExact(truth[k], day * DAY + nxt);
      day := WalkBack(day, nxt, pending[k].tod);
      nxt := pending[k].tod;
      events := [Event(day * DAY + nxt, pending[k].rest)] + events;
    }
  }

  /** The day of the line before: the same, or the one before if its time is more than half a day ahead. */
  method WalkBack(day: int, nxt: int, ptime: int) returns (d: int)
    requires 0 <= nxt < DAY && 0 <= ptime < DAY
    ensures d * DAY + ptime == PreviousInstant(day * DAY + nxt, ptime)
  {
    d := day;
    if ptime > nxt && ptime - nxt > HALF_DAY {
      d := d - 1;
    }
  }

  ghost function Zipped(pending: seq<Pending>, truth: seq<int>): (es: seq<Event>)
    requires |pending| == |truth|
  {
    seq(|pending|, i requires 0 <= i < |pending| => Event(truth[i], pending[i].rest))
  }

  /** The lines waiting for a date, and when they were received. */
  ghost predicate Waiting(pending: seq<Pending>, times: seq<int>, lines: seq<Line>, truth: seq<int>)
    requires |lines| == |truth|
  {
    && |times| == |pending| && (forall i :: 0 <= i < |pending| ==> pending[i].tod == times[i] % DAY)
    && (forall i :: 0 < i < |times| ==> 0 <= times[i] - times[i - 1] < HALF_DAY)
    && Zipped(pending, times) == TimeOnlyEvents(lines, truth)
    && (HasLegacy(lines) <==> times != [])
    && (times != [] ==> times[|times| - 1] == LastLegacy(lines, truth))
  }

  /** What the loop has recovered from the lines before index `i`. */
  ghost predicate Recovered(day: Option<int>, prev: int, pending: seq<Pending>, times: seq<int>, events: seq<Event>,
                            lines: seq<Line>, truth: seq<int>)
    requires |lines| == |truth|
  {
    && (day.None? <==> !Anchored(lines))
    && (day.None? ==> events == IsoEvents(lines, truth) && Waiting(pending, times, lines, truth))
    && (day.Some? ==> pending == [] && events == Expected(lines, truth) && HasLegacy(lines)
                      && prev == LastLegacy(lines, truth) && day.value == prev / DAY)
  }

  lemma OneMoreLine(lines: seq<Line>, n: nat)
    requires n < |lines|
    ensures Anchored(lines[..n + 1]) <==> Anchored(lines[..n]) || lines[n].BrokerLine?
    ensures HasLegacy(lines[..n + 1]) <==> HasLegacy(lines[..n]) || Legacy(lines[n])
    ensures lines[..n + 1][..n] == lines[..n]
  {
    assert lines[..n + 1] == lines[..n] + [lines[n]];
    assert Anchored(lines[..n]) ==> Anchored(lines[..n + 1]) by {
      if i :| 0 <= i < n && lines[..n][i].BrokerLine? {
        assert lines[..n + 1][i].BrokerLine?;
      }
    }
    assert HasLegacy(lines[..n]) ==> HasLegacy(lines[..n + 1]) by {
      if i :| 0 <= i < n && Legacy(lines[..n][i]) {
        assert Legacy(lines[..n + 1][i]);
      }
    }
    assert lines[n].BrokerLine? ==> lines[..n + 1][n].BrokerLine?;
    assert Legacy(lines[n]) ==> Legacy(lines[..n + 1][n]);
  }

  /** A dated line goes straight out. */
  method TakeIso(lines: seq<Line>, ghost truth: seq<int>, n: nat, day: Option<int>, ghost prev: int,
                 ghost pending: seq<Pending>, ghost times: seq<int>, was: seq<Event>) returns (events: seq<Event>)
    requires Recoverable(lines, truth) && n < |lines| && lines[n].Iso?
    requires Recovered(day, prev, pending, times, was, lines[..n], truth[..n])
    ensures Recovered(day, prev, pending, times, events, lines[..n + 1], truth[..n + 1])
  {
    assert RecoverableAt(lines, truth, n);
    OneMoreLine(lines, n);
    assert truth[..n + 1][..n] == truth[..n];
    events := was + [Event(lines[n].at, lines[n].rest)];
  }

  /** A time-only line waits for the first anchor, or continues from the legacy line before it. */
  method TakeTimeOnly(lines: seq<Line>, ghost truth: seq<int>, n: nat, day: Option<int>, prev: int,
                      pending: seq<Pending>, ghost times: seq<int>, was: seq<Event>)
    returns (newDay: Option<int>, newPrev: int, newPending: seq<Pending>, ghost newTimes: seq<int>, events: seq<Event>)
    requires Recoverable(lines, truth) && n < |lines| && lines[n].TimeOnly?
    requires Recovered(day, prev, pending, times, was, lines[..n], truth[..n])
    ensures Recovered(newDay, newPrev, newPending, newTimes, events, lines[..n + 1], truth[..n + 1])
  {
    assert RecoverableAt(lines, truth, n);
    OneMoreLine(lines, n);
    assert truth[..n + 1][..n] == truth[..n];
    newDay, newPrev, newPending, newTimes, events := day, prev, pending, times, was;
    if day.None? {
      newPending := pending + [Pending(lines[n].tod, lines[n].rest)];
      newTimes := times + [truth[n]];
      assert Zipped(newPending, newTimes) == Zipped(pending, times) + [Event(truth[n], lines[n].rest)];
    } else {
      var d, dt := WalkOn(day.value, prev, lines[n].tod);
      NextIs(prev, truth[n], dt);
      newDay, newPrev := Some(d), dt;
      events := was + [Event(dt, lines[n].rest)];
    }
  }

  /** The instant of a time-only line after the one at `prev`, and its day. */
  method WalkOn(day: int, prev: int, tod: int) returns (d: int, dt: int)
    requires day == prev / DAY && 0 <= tod < DAY
    ensures dt == NextInstant(prev, tod) && d == dt / DAY
  {
    d, dt := day, day * DAY + tod;
    if prev - dt > HALF_DAY {
      d, dt := d + 1, dt + DAY;
    }
  }

  lemma NextIs(prev: int, at: int, dt: int)
    requires 0 <= at - prev < HALF_DAY && dt == NextInstant(prev, at % DAY)
    ensures dt == at
    ensures at / DAY == if prev - (prev / DAY * DAY + at % DAY) > HALF_DAY then prev / DAY + 1 else prev / DAY
  {
  }

  /** What is due after a broker line: whatever waited is due before it. */
  lemma ExpectedAtBrokerLine(lines: seq<Line>, truth: seq<int>, n: nat)
    requires |lines| == |truth| && n < |lines| && lines[n].BrokerLine?
    ensures var line, before, then0 := [Event(truth[n], lines[n].rest)], lines[..n], truth[..n];
            Expected(lines[..n + 1], truth[..n + 1])
            == if Anchored(before) then Expected(before, then0) + line
               else IsoEvents(before, then0) + (TimeOnlyEvents(before, then0) + line)
    ensures LastLegacy(lines[..n + 1], truth[..n + 1]) == truth[n]
  {
    assert lines[..n + 1][..n] == lines[..n] && truth[..n + 1][..n] == truth[..n];
  }

  /** The lines that waited, dated back from the first anchor. */
  method Release(pending: seq<Pending>, at: int, ghost times: seq<int>, ghost lines: seq<Line>, ghost truth: seq<int>)
    returns (back: seq<Event>)
    requires |lines| == |truth| && Waiting(pending, times, lines, truth)
    requires times != [] ==> 0 <= at - times[|times| - 1] < HALF_DAY
    ensures back == TimeOnlyEvents(lines, truth)
  {
    back := BackDate(pending, at, times);
    assert back == Zipped(pending, times);
  }

  /** A broker line anchors the date anew; the first one also dates everything that waited. */
  method TakeBrokerLine(lines: seq<Line>, ghost truth: seq<int>, n: nat, day: Option<int>, ghost prev: int,
                        pending: seq<Pending>, ghost times: seq<int>, was: seq<Event>)
    returns (newDay: Option<int>, newPrev: int, events: seq<Event>)
    requires Recoverable(lines, truth) && n < |lines| && lines[n].BrokerLine?
    requires Recovered(day, prev, pending, times, was, lines[..n], truth[..n])
    ensures Recovered(newDay, newPrev, [], [], events, lines[..n + 1], truth[..n + 1])
  {
    assert RecoverableAt(lines, truth, n);
    var cand := AnchorOf(lines[n].tod, lines[n].local);
    AnchorExact(truth[n], lines[n].tod, lines[n].local);
    ExpectedAtBrokerLine(lines, truth, n);
    events := [Event(cand, lines[n].rest)];
    if day.None? {
      var back := Release(pending, cand, times, lines[..n], truth[..n]);
      events := was + (back + events);
    } else {
      events := was + events;
    }
    newDay, newPrev := Some(cand / DAY), cand;
    OneMoreLine(lines, n);
  }

  lemma SkipUnmatched(day: Option<int>, prev: int, pending: seq<Pending>, times: seq<int>, events: seq<Event>,
                      lines: seq<Line>, truth: seq<int>, n: nat)
    requires |lines| == |truth| && n < |lines| && lines[n].Unmatched?
    requires Recovered(day, prev, pending, times, events, lines[..n], truth[..n])
    ensures Recovered(day, prev, pending, times, events, lines[..n + 1], truth[..n + 1])
  {
    OneMoreLine(lines, n);
    assert truth[..n + 1][..n] == truth[..n];
  }

  /** One turn of the loop. */
  method TakeLine(lines: seq<Line>, ghost truth: seq<int>, n: nat, day: Option<int>, prev: int,
                  pending: seq<Pending>, ghost times: seq<int>, was: seq<Event>)
    returns (newDay: Option<int>, newPrev: int, newPending: seq<Pending>, ghost newTimes: seq<int>, events: seq<Event>)
    requires Recoverable(lines, truth) && n < |lines|
    requires Recovered(day, prev, pending, times, was, lines[..n], truth[..n])
    ensures Recovered(newDay, newPrev, newPending, newTimes, events, lines[..n + 1], truth[..n + 1])
  {
    newDay, newPrev, newPending, newTimes, events := day, prev, pending, times, was;
    match lines[n]
    case Iso(_, _) =>
      events := TakeIso(lines, truth, n, day, prev, pending, times, was);
    case TimeOnly(_, _) =>
      newDay, newPrev, newPending, newTimes, events := TakeTimeOnly(lines, truth, n, day, prev, pending, times, was);
    case BrokerLine(_, _, _) =>
      newDay, newPrev, events := TakeBrokerLine(lines, truth, n, day, prev, pending, times, was);
      newPending, newTimes := [], [];
    case Unmatched =>
      SkipUnmatched(day, prev, pending, times, was, lines, truth, n);
  }

  /**
   * The whole file: every line gets the instant it was received at, before the first broker line, after
   * it, and across any number of midnights. None stands for the exit when there is nothing to anchor on.
   */
  method ParseRaw(lines: seq<Line>, ghost truth: seq<int>) returns (events: Option<seq<Event>>)
    requires Recoverable(lines, truth)
    ensures events.None? <==> HasLegacy(lines) && !Anchored(lines)
    ensures events.Some? ==> events.value == if Anchored(lines) then Expected(lines, truth) else IsoEvents(lines, truth)
  {
    var day, prev, pending, found := None, 0, [], [];
    ghost var times: seq<int> := [];
    for n := 0 to |lines|
      invariant Recovered(day, prev, pending, times, found, lines[..n], truth[..n])
    {
      day, prev, pending, times, found := TakeLine(lines, truth, n, day, prev, pending, times, found);
    }
    assert lines[..|lines|] == lines && truth[..|lines|] == truth;
    events := if pending != [] then None else Some(found);
  }
}
