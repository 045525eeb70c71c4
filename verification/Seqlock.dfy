/**
 * The main processor's snapshot of the LP core's memory (lp_sensor_core_get_state), field by field, at
 * arbitrary moments of the stores that LpCore.LpProgram makes.
 */
module Seqlock {
  import opened Words
  import opened LpCore

  const ATTEMPTS: nat := 10

  datatype Field = Heartbeat | SensorOk | FailCount | RawT | RawH | CalT | CalH | Wake
                 | Since | HighRh | Active | LastRun | Delta | Passed | Runs | PrevT | PrevH

  /** One attempt: when the counter is read, when each field is copied, when the counter is read again. */
  datatype Attempt = Attempt(before: nat, at: Field -> nat, after: nat)

  /** The copy happens between the two looks at the counter. */
  ghost predicate Timed(hist: seq<Lp>, a: Attempt) {
    a.before <= a.after < |hist| && forall f: Field :: a.before <= a.at(f) <= a.after
  }

  /** How often the counter stepped after entry `i` up to entry `j`. */
  ghost function Bumps(hist: seq<Lp>, i: nat, j: nat): (n: nat)
    requires i <= j < |hist|
    decreases j
  {
    if i == j then 0 else Bumps(hist, i, j - 1) + if hist[j].seqNo == hist[j - 1].seqNo then 0 else 1
  }

  /** The snapshot an attempt assembles. */
  function Copy(hist: seq<Lp>, at: Field -> nat): (r: Report)
    requires forall f: Field :: at(f) < |hist|
  {
    Report(
      Status(hist[at(Heartbeat)].report.status.heartbeat, hist[at(SensorOk)].report.status.ok,
             hist[at(FailCount)].report.status.fails),
      Values(hist[at(RawT)].report.values.rawT, hist[at(RawH)].report.values.rawH,
             hist[at(CalT)].report.values.calT, hist[at(CalH)].report.values.calH),
      Heater(hist[at(Since)].report.heater.since, hist[at(HighRh)].report.heater.highRh,
             hist[at(Active)].report.heater.active, hist[at(LastRun)].report.heater.lastRun,
             hist[at(Delta)].report.heater.delta, hist[at(Passed)].report.heater.passed,
             hist[at(Runs)].report.heater.runs),
      hist[at(Wake)].report.wake)
  }

  lemma {:induction false} CounterTracksBumps(hist: seq<Lp>, i: nat, j: nat)
    requires Disciplined(hist) && i <= j < |hist|
    ensures hist[j].seqNo == Wrap32(hist[i].seqNo + Bumps(hist, i, j))
    decreases j
  {
    if i < j {
      CounterTracksBumps(hist, i, j - 1);
      assert StoreOk(hist[j - 1], hist[j]);
      WrapSum(hist[i].seqNo + Bumps(hist, i, j - 1), 1);
    }
  }

  /** No step of the counter and an even value: nothing the lock protects changes. */
  lemma {:induction false} NothingMoves(hist: seq<Lp>, i: nat, j: nat)
    requires Disciplined(hist) && i <= j < |hist| && hist[i].seqNo % 2 == 0 && Bumps(hist, i, j) == 0
    ensures hist[j].seqNo == hist[i].seqNo && hist[j].report == hist[i].report
    decreases j
  {
    if i < j {
      NothingMoves(hist, i, j - 1);
      assert StoreOk(hist[j - 1], hist[j]);
    }
  }

  lemma {:induction false} BumpsSplit(hist: seq<Lp>, i: nat, k: nat, j: nat)
    requires i <= k <= j < |hist|
    ensures Bumps(hist, i, j) == Bumps(hist, i, k) + Bumps(hist, k, j)
    decreases j
  {
    if k < j {
      BumpsSplit(hist, i, k, j - 1);
    }
  }

  /** Even and unchanged, with fewer than 2^32 steps: no step at all. */
  lemma NoStep(hist: seq<Lp>, a: Attempt)
    requires Disciplined(hist) && Timed(hist, a) && Bumps(hist, a.before, a.after) < 0x1_0000_0000
    ensures hist[a.before].seqNo == hist[a.after].seqNo <==> Bumps(hist, a.before, a.after) == 0
  {
    CounterTracksBumps(hist, a.before, a.after);
    var s, n := hist[a.before].seqNo, Bumps(hist, a.before, a.after);
    WrapInjective(s, s + n);
  }

  /**
   * A clean attempt copies every protected field as it stood at one single even point, however the
   * stores of the LP core fall between its loads.
   */
  lemma CleanReadIsOnePoint(hist: seq<Lp>, a: Attempt)
    requires Disciplined(hist) && Timed(hist, a) && Bumps(hist, a.before, a.after) < 0x1_0000_0000
    requires hist[a.before].seqNo % 2 == 0 && hist[a.before].seqNo == hist[a.after].seqNo
    ensures Copy(hist, a.at) == hist[a.before].report == hist[a.after].report
  {
    NoStep(hist, a);
    forall f: Field
      ensures hist[a.at(f)].report == hist[a.before].report
    {
      BumpsSplit(hist, a.before, a.at(f), a.after);
      NothingMoves(hist, a.before, a.at(f));
    }
    NothingMoves(hist, a.before, a.after);
  }

  predicate OddAt(hist: seq<Lp>, i: nat) {
    i < |hist| && hist[i].seqNo % 2 == 1
  }

  predicate Clean(hist: seq<Lp>, a: Attempt) {
    a.before < |hist| && a.after < |hist| && !OddAt(hist, a.before)
    && hist[a.before].seqNo == hist[a.after].seqNo
  }

  /** An attempt of a reader that is not overtaken by 2^32 steps. */
  ghost predicate Usable(hist: seq<Lp>, a: Attempt) {
    Timed(hist, a) && Bumps(hist, a.before, a.after) < 0x1_0000_0000
  }

  /** The snapshot is the memory as it stood at an even point that one of the attempts saw. */
  ghost predicate Snapshot(hist: seq<Lp>, attempts: seq<Attempt>, out: Report) {
    exists k :: 0 <= k < |attempts| && Clean(hist, attempts[k]) && out == hist[attempts[k].before].report
  }

  /** The attempts of one call, one after the other. */
  ghost predicate Call(hist: seq<Lp>, attempts: seq<Attempt>) {
    && |attempts| == ATTEMPTS
    && (forall k: nat :: k < |attempts| ==> Usable(hist, attempts[k]))
    && (forall j: nat, k: nat :: j < k < |attempts| ==> attempts[j].after <= attempts[k].before)
  }

  /** What the output holds after the first `n` attempts: the last copy made, if any was. */
  function LastCopied(hist: seq<Lp>, attempts: seq<Attempt>, n: nat, initial: Report): (r: Report)
    requires n <= |attempts| && forall k: nat, f: Field :: k < n ==> attempts[k].at(f) < |hist|
  {
    if n == 0 then initial
    else if OddAt(hist, attempts[n - 1].before) then LastCopied(hist, attempts, n - 1, initial)
    else Copy(hist, attempts[n - 1].at)
  }

  lemma CleanIsSnapshot(hist: seq<Lp>, attempts: seq<Attempt>, k: nat)
    requires Disciplined(hist) && k < |attempts| && Usable(hist, attempts[k])
    requires !OddAt(hist, attempts[k].before) && hist[attempts[k].before].seqNo == hist[attempts[k].after].seqNo
    ensures Clean(hist, attempts[k]) && Snapshot(hist, attempts, Copy(hist, attempts[k].at))
  {
    CleanReadIsOnePoint(hist, attempts[k]);
  }

  lemma CopiedSoFar(hist: seq<Lp>, attempts: seq<Attempt>, n: nat, initial: Report)
    requires 0 < n <= |attempts| && forall k: nat, f: Field :: k < n ==> attempts[k].at(f) < |hist|
    ensures LastCopied(hist, attempts, n, initial)
            == if OddAt(hist, attempts[n - 1].before) then LastCopied(hist, attempts, n - 1, initial)
               else Copy(hist, attempts[n - 1].at)
  {
  }

  /**
   * The bounded retry loop. It succeeds exactly if one of ten attempts is clean. Otherwise the caller gets
   * the last copy that was made, or keeps what it passed in if every attempt found the counter odd.
   */
  method GetState(hist: seq<Lp>, attempts: seq<Attempt>, initial: Report) returns (out: Report, clean: bool)
    requires Disciplined(hist) && Call(hist, attempts)
    ensures clean <==> exists k :: 0 <= k < |attempts| && Clean(hist, attempts[k])
    ensures clean ==> Snapshot(hist, attempts, out)
    ensures !clean ==> out == LastCopied(hist, attempts, ATTEMPTS, initial)
    ensures (forall k :: 0 <= k < |attempts| ==> OddAt(hist, attempts[k].before)) ==> out == initial && !clean
  {
    out, clean := initial, false;
    for attempt := 0 to ATTEMPTS
      invariant forall k :: 0 <= k < attempt ==> !Clean(hist, attempts[k])
      invariant out == LastCopied(hist, attempts, attempt, initial)
    {
      var a := attempts[attempt];
      CopiedSoFar(hist, attempts, attempt + 1, initial);
      if OddAt(hist, a.before) {
        continue;
      }
      out := Copy(hist, a.at);
      if hist[a.before].seqNo == hist[a.after].seqNo {
        CleanIsSnapshot(hist, attempts, attempt);
        return out, true;
      }
    }
    OddKeepsInitial(hist, attempts, ATTEMPTS, initial);
  }

  lemma {:induction false} OddKeepsInitial(hist: seq<Lp>, attempts: seq<Attempt>, n: nat, initial: Report)
    requires n <= |attempts| && forall k: nat, f: Field :: k < n ==> attempts[k].at(f) < |hist|
    ensures (forall k :: 0 <= k < n ==> OddAt(hist, attempts[k].before))
            ==> LastCopied(hist, attempts, n, initial) == initial
  {
    if n > 0 {
      OddKeepsInitial(hist, attempts, n - 1, initial);
    }
  }

  /**
   * A clean read in the course of an invocation is the report of the invocation before, its own, or
   * what it published while the heater was on: the stable points that LpCore.LpProgram.Poll leaves.
   */
  lemma CleanReadIsStable(hist: seq<Lp>, a: Attempt, from: nat, reports: seq<Report>)
    requires Disciplined(hist) && Usable(hist, a) && Clean(hist, a) && from <= a.before
    requires forall k :: from <= k < |hist| ==> hist[k].seqNo % 2 == 1 || hist[k].report in reports
    ensures Copy(hist, a.at) in reports
  {
    CleanReadIsOnePoint(hist, a);
  }

  // ---- falling through ---------------------------------------------------------------------------------

  lemma {:induction false} BumpsAtMost(hist: seq<Lp>, i: nat, j: nat)
    requires i <= j < |hist|
    ensures Bumps(hist, i, j) <= j - i
    decreases j
  {
    if i < j {
      BumpsAtMost(hist, i, j - 1);
    }
  }

  /** What one field holds. */
  datatype Content = Word(n: uint32) | Flag(b: bool) | Number(x: real)

  /** A field of a report; the delivered baseline is not part of one. */
  function Get(r: Report, f: Field): (c: Content) {
    match f
    case Heartbeat => Word(r.status.heartbeat)
    case SensorOk => Flag(r.status.ok)
    case FailCount => Word(r.status.fails)
    case RawT => Number(r.values.rawT)
    case RawH => Number(r.values.rawH)
    case CalT => Number(r.values.calT)
    case CalH => Number(r.values.calH)
    case Wake => Flag(r.wake)
    case Since => Word(r.heater.since)
    case HighRh => Word(r.heater.highRh)
    case Active => Flag(r.heater.active)
    case LastRun => Word(r.heater.lastRun)
    case Delta => Number(r.heater.delta)
    case Passed => Flag(r.heater.passed)
    case Runs => Word(r.heater.runs)
    case PrevT => Word(0)
    case PrevH => Word(0)
  }

  lemma SameStatus(r: Report, q: Report)
    requires Get(r, Heartbeat) == Get(q, Heartbeat) && Get(r, SensorOk) == Get(q, SensorOk)
    requires Get(r, FailCount) == Get(q, FailCount) && Get(r, Wake) == Get(q, Wake)
    ensures r.status == q.status && r.wake == q.wake
  {
  }

  lemma SameValues(r: Report, q: Report)
    requires Get(r, RawT) == Get(q, RawT) && Get(r, RawH) == Get(q, RawH)
    requires Get(r, CalT) == Get(q, CalT) && Get(r, CalH) == Get(q, CalH)
    ensures r.values == q.values
  {
  }

  lemma SameHeater(r: Report, q: Report)
    requires Get(r, Since) == Get(q, Since) && Get(r, HighRh) == Get(q, HighRh) && Get(r, Active) == Get(q, Active)
    requires Get(r, LastRun) == Get(q, LastRun) && Get(r, Delta) == Get(q, Delta)
    requires Get(r, Passed) == Get(q, Passed) && Get(r, Runs) == Get(q, Runs)
    ensures r.heater == q.heater
  {
  }

  /** What a field held, entry by entry. */
  ghost function Column(hist: seq<Lp>, f: Field): (c: nat -> Content) {
    (i: nat) => if i < |hist| then Get(hist[i].report, f) else Word(0)
  }

  /** The field-wise view: a report is an entry of the memory if every field is that entry's. */
  lemma EntryByFields(hist: seq<Lp>, r: Report, i: nat)
    requires i < |hist| && forall f: Field :: Get(r, f) == Column(hist, f)(i)
    ensures r == hist[i].report
  {
    var q := hist[i].report;
    forall f: Field
      ensures Get(r, f) == Get(q, f)
    {
      assert Column(hist, f)(i) == Get(q, f);
    }
    SameStatus(r, q);
    SameValues(r, q);
    SameHeater(r, q);
  }

  /** A copy takes each field from the entry at which it was loaded. */
  lemma CopyTakes(hist: seq<Lp>, at: Field -> nat, f: Field)
    requires forall g: Field :: at(g) < |hist|
    ensures Get(Copy(hist, at), f) == Column(hist, f)(at(f))
  {
  }

  /** A report that the memory held at no entry from `before` to `after`. */
  ghost predicate Torn(hist: seq<Lp>, before: nat, after: nat, r: Report)
    requires before <= after < |hist|
  {
    forall i: nat :: before <= i <= after ==> r != hist[i].report
  }

  /** A field that takes no value again that it had before another one. */
  ghost predicate Settles(c: nat -> Content, before: nat, after: nat) {
    forall i: nat, j: nat, k: nat :: before <= i <= j <= k <= after && c(i) == c(k) ==> c(i) == c(j)
  }

  /** No protected field takes an earlier value again. */
  ghost predicate NoReturn(hist: seq<Lp>, before: nat, after: nat) {
    forall f: Field :: Settles(Column(hist, f), before, after)
  }

  ghost predicate Changed(hist: seq<Lp>, before: nat, after: nat, f: Field) {
    Column(hist, f)(before) != Column(hist, f)(after)
  }

  /** Two protected fields differ between the two looks at the counter. */
  ghost predicate TwoChanged(hist: seq<Lp>, before: nat, after: nat) {
    exists f: Field, g: Field :: f != g && Changed(hist, before, after, f) && Changed(hist, before, after, g)
  }

  /** The loads of one attempt, with `f` loaded at the end and everything else at the beginning. */
  function LoadedLate(before: nat, after: nat, f: Field): (at: Field -> nat) {
    g => if g == f then after else before
  }

  /** At `i` the first field holds its last value and the second its first one. */
  ghost predicate Mixed(c: nat -> Content, d: nat -> Content, before: nat, after: nat, i: nat) {
    before <= i <= after && c(i) == c(after) && d(i) == d(before)
  }

  /** Of two changed fields one was stored for good before the other. */
  lemma NotBothWays(c: nat -> Content, d: nat -> Content, before: nat, after: nat, i: nat, j: nat)
    requires Settles(c, before, after) && Settles(d, before, after)
    requires c(before) != c(after) && d(before) != d(after) && Mixed(c, d, before, after, i)
    ensures !Mixed(d, c, before, after, j)
  {
  }

  /** If a copy is the report of an entry, that entry holds what was loaded. */
  lemma EntryHolds(hist: seq<Lp>, at: Field -> nat, g: Field, i: nat)
    requires i < |hist| && (forall f: Field :: at(f) < |hist|) && Copy(hist, at) == hist[i].report
    ensures Column(hist, g)(i) == Column(hist, g)(at(g))
  {
    CopyTakes(hist, at, g);
  }

  lemma LateLoadMixes(hist: seq<Lp>, at: Field -> nat, before: nat, after: nat, f: Field, g: Field, i: nat,
                      c: nat -> Content, d: nat -> Content)
    requires before <= i <= after < |hist| && forall e: Field :: at(e) < |hist|
    requires at(f) == after && at(g) == before && Copy(hist, at) == hist[i].report
    requires c == Column(hist, f) && d == Column(hist, g)
    ensures Mixed(c, d, before, after, i)
  {
    EntryHolds(hist, at, f, i);
    EntryHolds(hist, at, g, i);
  }

  /** Some order of the loads between the two looks at the counter gives a report that the memory never held. */
  ghost predicate MayTear(hist: seq<Lp>, before: nat, after: nat)
    requires before <= after < |hist|
  {
    exists at: Field -> nat :: TearsAt(hist, before, after, at)
  }

  ghost predicate TearsAt(hist: seq<Lp>, before: nat, after: nat, at: Field -> nat)
    requires before <= after < |hist|
  {
    Timed(hist, Attempt(before, at, after)) && Torn(hist, before, after, Copy(hist, at))
  }

  lemma LateLoads(hist: seq<Lp>, before: nat, after: nat, f: Field) returns (at: Field -> nat)
    requires before <= after < |hist|
    ensures Timed(hist, Attempt(before, at, after)) && at(f) == after && forall g: Field :: g != f ==> at(g) == before
  {
    at := LoadedLate(before, after, f);
  }

  lemma Untorn(hist: seq<Lp>, before: nat, after: nat, at: Field -> nat) returns (i: nat)
    requires before <= after < |hist| && Timed(hist, Attempt(before, at, after)) && !TearsAt(hist, before, after, at)
    ensures before <= i <= after && Copy(hist, at) == hist[i].report
  {
    i :| before <= i <= after && Copy(hist, at) == hist[i].report;
  }

  /** Of two changed fields, loading one or the other late gives a report that was never there. */
  lemma TwoChangesTear(hist: seq<Lp>, before: nat, after: nat, f: Field, g: Field)
    requires before <= after < |hist| && NoReturn(hist, before, after)
    requires f != g && Changed(hist, before, after, f) && Changed(hist, before, after, g)
    ensures MayTear(hist, before, after)
  {
    var at := LateLoads(hist, before, after, f);
    var to := LateLoads(hist, before, after, g);
    if !TearsAt(hist, before, after, at) && !TearsAt(hist, before, after, to) {
      var i := Untorn(hist, before, after, at);
      var j := Untorn(hist, before, after, to);
      var c, d := Column(hist, f), Column(hist, g);
      LateLoadMixes(hist, at, before, after, f, g, i, c, d);
      LateLoadMixes(hist, to, before, after, g, f, j, d, c);
      NotBothWays(c, d, before, after, i, j);
    }
  }

  /** With at most one field changed, every copy is the entry at which that field was loaded. */
  lemma OneChangeIsWhole(hist: seq<Lp>, before: nat, after: nat, at: Field -> nat)
    requires before <= after < |hist| && NoReturn(hist, before, after) && !TwoChanged(hist, before, after)
    requires Timed(hist, Attempt(before, at, after))
    ensures !Torn(hist, before, after, Copy(hist, at))
  {
    var i := before;
    if f: Field :| Changed(hist, before, after, f) {
      i := at(f);
    }
    forall g: Field
      ensures Get(Copy(hist, at), g) == Column(hist, g)(i)
    {
      CopyTakes(hist, at, g);
      UnchangedStays(hist, before, after, g, at(g), i);
    }
    EntryByFields(hist, Copy(hist, at), i);
  }

  lemma UnchangedStays(hist: seq<Lp>, before: nat, after: nat, g: Field, i: nat, j: nat)
    requires NoReturn(hist, before, after) && before <= i <= after && before <= j <= after
    ensures !Changed(hist, before, after, g) ==> Column(hist, g)(i) == Column(hist, g)(j)
  {
    assert Settles(Column(hist, g), before, after);
  }

  /**
   * An attempt during which no protected field takes an earlier value again may come out torn exactly if
   * at least two protected fields changed between its two looks at the counter.
   */
  lemma TornIff(hist: seq<Lp>, before: nat, after: nat)
    requires before <= after < |hist| && NoReturn(hist, before, after)
    ensures MayTear(hist, before, after) <==> TwoChanged(hist, before, after)
  {
    if TwoChanged(hist, before, after) {
      var f: Field, g: Field :| f != g && Changed(hist, before, after, f) && Changed(hist, before, after, g);
      TwoChangesTear(hist, before, after, f, g);
    } else {
      forall at: Field -> nat
        ensures !TearsAt(hist, before, after, at)
      {
        if Timed(hist, Attempt(before, at, after)) {
          OneChangeIsWhole(hist, before, after, at);
        }
      }
    }
  }

  /** The last attempt that found the counter even decides what is left after `n` of them. */
  lemma {:induction false} LastCopyCounts(hist: seq<Lp>, attempts: seq<Attempt>, j: nat, n: nat, initial: Report)
    requires j < n <= |attempts| && forall k: nat, f: Field :: k < n ==> attempts[k].at(f) < |hist|
    requires !OddAt(hist, attempts[j].before) && forall k: nat :: j < k < n ==> OddAt(hist, attempts[k].before)
    ensures LastCopied(hist, attempts, n, initial) == Copy(hist, attempts[j].at)
  {
    if j + 1 < n {
      LastCopyCounts(hist, attempts, j, n - 1, initial);
    }
  }

  /** Attempt `j` of a call is the last that copied. */
  ghost predicate CopiesLast(hist: seq<Lp>, attempts: seq<Attempt>, j: nat) {
    && j < ATTEMPTS && Call(hist, attempts) && !OddAt(hist, attempts[j].before)
    && forall k: nat :: j < k < ATTEMPTS ==> OddAt(hist, attempts[k].before)
  }

  /** The call with the loads of attempt `j` made in another order. */
  function Reloaded(attempts: seq<Attempt>, j: nat, at: Field -> nat): (a: seq<Attempt>)
    requires j < |attempts|
  {
    attempts[j := attempts[j].(at := at)]
  }

  ghost predicate LeavesTorn(hist: seq<Lp>, attempts: seq<Attempt>, j: nat, at: Field -> nat, initial: Report)
    requires CopiesLast(hist, attempts, j)
  {
    Timed(hist, attempts[j].(at := at))
    && Torn(hist, attempts[j].before, attempts[j].after,
            LastCopied(hist, Reloaded(attempts, j, at), ATTEMPTS, initial))
  }

  /**
   * A call that falls through can leave a torn snapshot exactly if at least two protected fields changed
   * between the looks of the last attempt that copied, taking no earlier value again meanwhile.
   */
  lemma FallThroughTornIff(hist: seq<Lp>, attempts: seq<Attempt>, j: nat, initial: Report)
    requires CopiesLast(hist, attempts, j) && NoReturn(hist, attempts[j].before, attempts[j].after)
    ensures (exists at: Field -> nat :: LeavesTorn(hist, attempts, j, at, initial))
            <==> TwoChanged(hist, attempts[j].before, attempts[j].after)
  {
    var before, after := attempts[j].before, attempts[j].after;
    TornIff(hist, before, after);
    forall at: Field -> nat | Timed(hist, Attempt(before, at, after))
      ensures LeavesTorn(hist, attempts, j, at, initial) <==> TearsAt(hist, before, after, at)
    {
      LastCopyCounts(hist, Reloaded(attempts, j, at), j, ATTEMPTS, initial);
    }
    if MayTear(hist, before, after) {
      var at: Field -> nat :| TearsAt(hist, before, after, at);
      assert LeavesTorn(hist, attempts, j, at, initial);
    }
  }

  /** The memory held this heartbeat at some entry between the attempt's two looks at the counter. */
  ghost predicate BeatHeld(hist: seq<Lp>, a: Attempt, h: uint32) {
    exists i: nat :: a.before <= i <= a.after && i < |hist| && hist[i].report.status.heartbeat == h
  }

  lemma CopiedBeatHeld(hist: seq<Lp>, a: Attempt)
    requires Timed(hist, a)
    ensures BeatHeld(hist, a, Copy(hist, a.at).status.heartbeat)
  {
    var i := a.at(Heartbeat);
    assert a.before <= i <= a.after && hist[i].report.status.heartbeat == Copy(hist, a.at).status.heartbeat;
  }

  ghost predicate BeatHeldBy(hist: seq<Lp>, attempts: seq<Attempt>, n: nat, h: uint32)
    requires n <= |attempts|
  {
    exists k: nat :: k < n && BeatHeld(hist, attempts[k], h)
  }

  /** The heartbeat is one word: torn or not, what is left is the caller's or one that the memory held meanwhile. */
  lemma {:induction false} HeartbeatAsItStood(hist: seq<Lp>, attempts: seq<Attempt>, n: nat, initial: Report)
    requires n <= |attempts| && forall k: nat :: k < n ==> Timed(hist, attempts[k])
    requires forall k: nat, f: Field :: k < n ==> attempts[k].at(f) < |hist|
    ensures var h := LastCopied(hist, attempts, n, initial).status.heartbeat;
            BeatHeldBy(hist, attempts, n, h)
            || (h == initial.status.heartbeat && forall k: nat :: k < n ==> OddAt(hist, attempts[k].before))
  {
    if n > 0 {
      if OddAt(hist, attempts[n - 1].before) {
        HeartbeatAsItStood(hist, attempts, n - 1, initial);
      } else {
        CopiedBeatHeld(hist, attempts[n - 1]);
      }
    }
  }

  /** A window opened and closed, and another in which the heartbeat and then a value are stored. */
  function TwoWindows(s: Lp): (hist: seq<Lp>) {
    var odd := s.(seqNo := Wrap32(s.seqNo + 1));
    var even := s.(seqNo := Wrap32(s.seqNo + 2));
    var open := s.(seqNo := Wrap32(s.seqNo + 3));
    var next := s.report.status.(heartbeat := Wrap32(s.report.status.heartbeat + 1));
    var beat := open.(report := s.report.(status := next));
    var value := beat.(report := beat.report.(values := beat.report.values.(calT := beat.report.values.calT + 1.0)));
    [s, odd, even, open, beat, value]
  }

  /** Nine attempts in the first window; the last copies the heartbeat before the second and the value in it. */
  function LateAttempts(): (attempts: seq<Attempt>) {
    seq(ATTEMPTS, k => if k < ATTEMPTS - 1 then Attempt(1, f => 1, 1)
                       else Attempt(2, f => if f == CalT then 5 else 2, 5))
  }

  lemma WrapSteps(n: uint32)
    requires n % 2 == 0
    ensures Wrap32(n + 1) % 2 == 1 && Wrap32(n + 2) % 2 == 0 && Wrap32(n + 3) % 2 == 1
    ensures Wrap32(Wrap32(n + 1) + 1) == Wrap32(n + 2) && Wrap32(Wrap32(n + 2) + 1) == Wrap32(n + 3) != Wrap32(n + 2)
  {
  }

  lemma WindowsAreDisciplined(s: Lp)
    requires s.seqNo % 2 == 0
    ensures Disciplined(TwoWindows(s))
    ensures OddAt(TwoWindows(s), 1) && !OddAt(TwoWindows(s), 2)
    ensures TwoWindows(s)[2].seqNo != TwoWindows(s)[5].seqNo
  {
    var hist := TwoWindows(s);
    WrapSteps(s.seqNo);
    assert StoreOk(hist[0], hist[1]) && StoreOk(hist[1], hist[2]) && StoreOk(hist[2], hist[3]);
    assert StoreOk(hist[3], hist[4]) && StoreOk(hist[4], hist[5]);
  }

  lemma LateCall(s: Lp)
    requires s.seqNo % 2 == 0
    ensures Call(TwoWindows(s), LateAttempts())
  {
    var hist, attempts := TwoWindows(s), LateAttempts();
    forall k: nat | k < |attempts|
      ensures Usable(hist, attempts[k])
    {
      BumpsAtMost(hist, attempts[k].before, attempts[k].after);
    }
  }

  /**
   * After ten attempts, none of them clean, the caller can be left with a torn snapshot: one that the
   * memory never held at all.
   */
  lemma TornFallThrough(s: Lp, initial: Report)
    requires s.seqNo % 2 == 0
    ensures var hist, attempts := TwoWindows(s), LateAttempts();
            && Disciplined(hist) && Call(hist, attempts)
            && (forall k: nat :: k < ATTEMPTS ==> !Clean(hist, attempts[k]))
            && forall i: nat :: i < |hist| ==> LastCopied(hist, attempts, ATTEMPTS, initial) != hist[i].report
  {
    WindowsAreDisciplined(s);
    LateCall(s);
    var hist, attempts := TwoWindows(s), LateAttempts();
    assert attempts[ATTEMPTS - 1] == Attempt(2, attempts[ATTEMPTS - 1].at, 5);
    var out := LastCopied(hist, attempts, ATTEMPTS, initial);
    assert out.values.calT == s.report.values.calT + 1.0;
    assert out.status.heartbeat == s.report.status.heartbeat != Wrap32(s.report.status.heartbeat + 1);
  }

  // ---- what the lock leaves out ------------------------------------------------------------------------

  /** The delivered baseline as an attempt copies it. */
  function CopyBaseline(hist: seq<Lp>, at: Field -> nat): (b: (real, real))
    requires at(PrevT) < |hist| && at(PrevH) < |hist|
  {
    (hist[at(PrevT)].baseline.t, hist[at(PrevH)].baseline.h)
  }

  /** The first two stores of an acknowledgement. */
  function HalfAcked(s: Lp, ack: Ack): (hist: seq<Lp>) {
    var t := s.(baseline := s.baseline.(t := ack.t));
    [s, t, t.(baseline := t.baseline.(h := ack.h))]
  }

  /** A copy that loads everything at the beginning and the baseline's humidity at the end. */
  function LateHumidity(): (a: Attempt) {
    Attempt(0, f => if f == PrevH then 2 else 0, 2)
  }

  lemma HalfAckedIsDisciplined(hist: seq<Lp>, s: Lp, ack: Ack)
    requires hist == HalfAcked(s, ack)
    ensures Disciplined(hist) && Timed(hist, LateHumidity())
  {
    assert StoreOk(hist[0], hist[1]) && StoreOk(hist[1], hist[2]);
  }

  /**
   * The baseline is stored before the counter turns odd, so a clean read may still mix an old and a
   * new component of it.
   */
  lemma BaselineMayBeTorn(s: Lp, ack: Ack)
    requires s.seqNo % 2 == 0 && ack.t != s.baseline.t && ack.h != s.baseline.h
    ensures var hist, a := HalfAcked(s, ack), LateHumidity();
            && Disciplined(hist) && Timed(hist, a) && Clean(hist, a)
            && CopyBaseline(hist, a.at) == (s.baseline.t, ack.h) != (s.baseline.t, s.baseline.h)
            && CopyBaseline(hist, a.at) != (ack.t, ack.h)
  {
    HalfAckedIsDisciplined(HalfAcked(s, ack), s, ack);
  }
}
