/**
 * The main loop of main/sensorstask.cpp: which wake publishes, acknowledges or logs, and when the two
 * supervisors restart the chip.
 */
module Supervisor {
  import opened Words
  import Delivery

  const LP_STALL_REBOOT_THRESHOLD: nat := 2
  const UNCONFIRMED_OTA_REBOOT_AFTER_CYCLES: nat := 5

  datatype WakeReason = LpWake | OtaRetryTimeout | SafeguardTimeout
  datatype Reboot = Running | LpStall | OtaUnconfirmed

  /** One pass of the loop: the snapshot, what the other tasks answer, and how the wait at its end returns. */
  datatype Pass = Pass(attached: bool, heartbeat: uint32, wake: bool,
                       otaAtGate: bool, dueAtGate: bool, busy: bool, idleInTime: bool, succeeded: bool,
                       otaAtCheck: bool, stateRead: bool, markStateRead: bool,
                       dueAtWait: bool, otaAtWait: bool, lpWoke: bool)

  datatype Task = Task(lastSeen: uint32, stalled: nat, failing: nat, reason: WakeReason,
                       unconfirmed: bool, checked: bool, reboot: Reboot)

  function Boot(unconfirmed: bool): (t: Task) {
    Task(0, 0, 0, LpWake, unconfirmed, false, Running)
  }

  // ---- one pass ----------------------------------------------------------------------------------------

  function Advance(t: Task, p: Pass): (delta: uint32) {
    Wrap32(p.heartbeat - t.lastSeen)
  }

  /** Attached after a whole safeguard window, no download running, and the LP core has not moved. */
  predicate Stalls(t: Task, p: Pass) {
    p.attached && !p.otaAtGate && t.reason.SafeguardTimeout? && Advance(t, p) == 0
  }

  predicate Progresses(t: Task, p: Pass) {
    p.attached && Advance(t, p) > 0
  }

  predicate ShouldWake(t: Task, p: Pass) {
    Delivery.Actionable(t.lastSeen, p.heartbeat, p.wake)
  }

  predicate Serves(t: Task, p: Pass) {
    p.attached && !p.otaAtGate && !Stalls(t, p) && (ShouldWake(t, p) || p.dueAtGate)
  }

  predicate PublishedOk(t: Task, p: Pass) {
    Serves(t, p) && p.busy && p.idleInTime && p.succeeded
  }

  predicate Quiet(t: Task, p: Pass) {
    p.attached && (p.otaAtGate || (!Stalls(t, p) && !ShouldWake(t, p) && !p.dueAtGate))
  }

  predicate CycleOk(t: Task, p: Pass) {
    PublishedOk(t, p) || Quiet(t, p) || p.otaAtCheck
  }

  /** The image is confirmed by the first confirmed publish of a boot, if its state can be read then. */
  function UnconfirmedAfter(t: Task, p: Pass): (u: bool) {
    t.unconfirmed && !(PublishedOk(t, p) && !t.checked && p.markStateRead)
  }

  predicate Fails(t: Task, p: Pass) {
    p.stateRead && UnconfirmedAfter(t, p) && !CycleOk(t, p)
  }

  function StalledAfter(t: Task, p: Pass): (n: nat) {
    if Stalls(t, p) then t.stalled + 1 else if Progresses(t, p) then 0 else t.stalled
  }

  function ReasonAfter(p: Pass): (r: WakeReason) {
    if p.lpWoke then LpWake else if p.dueAtWait && !p.otaAtWait then OtaRetryTimeout else SafeguardTimeout
  }

  function Next(t: Task, p: Pass): (u: Task) {
    var stalled, failing := StalledAfter(t, p), if Fails(t, p) then t.failing + 1 else 0;
    if !t.reboot.Running? then t
    else
      Task(if p.attached then p.heartbeat else t.lastSeen, stalled,
           if Stalls(t, p) && stalled >= LP_STALL_REBOOT_THRESHOLD then t.failing else failing,
           ReasonAfter(p), UnconfirmedAfter(t, p), t.checked || PublishedOk(t, p),
           if Stalls(t, p) && stalled >= LP_STALL_REBOOT_THRESHOLD then LpStall
           else if Fails(t, p) && failing >= UNCONFIRMED_OTA_REBOOT_AFTER_CYCLES then OtaUnconfirmed
           else Running)
  }

  /** What a pass sends or stores: a live publish, an acknowledgement to the LP core, a history record. */
  datatype Effects = Effects(live: bool, otaOnly: bool, acked: bool, logged: bool)

  class SensorsTask {
    var lastSeenHeartbeat: uint32
    var lpStalledCycles: nat
    var cyclesUnconfirmedAndFailing: nat
    var wakeReason: WakeReason
    var unconfirmed: bool
    var checked: bool
    var reboot: Reboot

    ghost function Now(): (t: Task)
      reads this
    {
      Task(lastSeenHeartbeat, lpStalledCycles, cyclesUnconfirmedAndFailing, wakeReason, unconfirmed, checked, reboot)
    }

    constructor (unconfirmed: bool)
      ensures Now() == Boot(unconfirmed)
    {
      lastSeenHeartbeat, lpStalledCycles, cyclesUnconfirmedAndFailing := 0, 0, 0;
      wakeReason, checked, reboot := LpWake, false, Running;
      this.unconfirmed := unconfirmed;
    }

    /** Publishing: at most one of acknowledging and logging follows, and neither for an OTA-only cycle. */
    method Publish(p: Pass, otaOnly: bool) returns (ok: bool, effects: Effects)
      modifies this`unconfirmed, this`checked
      ensures ok == (p.busy && p.idleInTime && p.succeeded)
      ensures effects == Effects(!otaOnly, otaOnly, !otaOnly && ok, !otaOnly && p.busy && p.idleInTime && !ok)
      ensures unconfirmed == (old(unconfirmed) && !(ok && !old(checked) && p.markStateRead))
      ensures checked == (old(checked) || ok)
    {
      ok, effects := false, Effects(!otaOnly, otaOnly, false, false);
      if p.busy && p.idleInTime {
        ok := p.succeeded;
        if ok {
          effects := effects.(acked := !otaOnly);
          if !checked {
            checked := true;
            if p.markStateRead {
              unconfirmed := false;
            }
          }
        } else if !otaOnly {
          effects := effects.(logged := true);
        }
      }
    }

    /** Everything of a pass up to its recovery supervisors. */
    method Service(p: Pass) returns (ok: bool, stalled: bool, progressed: bool, effects: Effects)
      modifies this`lastSeenHeartbeat, this`unconfirmed, this`checked
      ensures lastSeenHeartbeat == if p.attached then p.heartbeat else old(lastSeenHeartbeat)
      ensures ok == CycleOk(old(Now()), p) && stalled == Stalls(old(Now()), p)
      ensures progressed == Progresses(old(Now()), p)
      ensures unconfirmed == UnconfirmedAfter(old(Now()), p)
      ensures checked == (old(checked) || PublishedOk(old(Now()), p))
      ensures effects.live == (p.attached && !p.otaAtGate && p.heartbeat != old(lastSeenHeartbeat) && p.wake)
      ensures effects.otaOnly ==
              (&& p.attached && !p.otaAtGate && p.dueAtGate && !effects.live
               && !(wakeReason.SafeguardTimeout? && p.heartbeat == old(lastSeenHeartbeat)))
      ensures effects.acked == (effects.live && p.busy && p.idleInTime && p.succeeded)
      ensures effects.logged == (effects.live && p.busy && p.idleInTime && !p.succeeded)
      ensures stalled == (&& p.attached && !p.otaAtGate && wakeReason.SafeguardTimeout?
                          && p.heartbeat == old(lastSeenHeartbeat))
      ensures ok ==
              (|| p.otaAtCheck || (p.attached && p.otaAtGate)
               || (if effects.live || effects.otaOnly then p.busy && p.idleInTime && p.succeeded
                   else p.attached && !stalled))
    {
      SameHeartbeat(p.heartbeat, lastSeenHeartbeat);
      stalled, progressed, effects := false, false, Effects(false, false, false, false);
      var publishedOk, quiet := false, false;
      if p.attached {
        var delta := Wrap32(p.heartbeat - lastSeenHeartbeat);
        lastSeenHeartbeat := p.heartbeat;
        progressed := delta > 0;
        var shouldWake := delta > 0 && p.wake;
        if p.otaAtGate {
          quiet := true;
        } else if wakeReason == SafeguardTimeout && delta == 0 {
          stalled := true;
        } else if shouldWake || p.dueAtGate {
          publishedOk, effects := Publish(p, !shouldWake);
        } else {
          quiet := true;
        }
      }
      ok := publishedOk || (p.attached && quiet) || p.otaAtCheck;
    }

    method Cycle(p: Pass) returns (effects: Effects)
      requires reboot.Running?
      modifies this
      ensures Now() == Next(old(Now()), p)
      ensures effects.live == (p.attached && !p.otaAtGate && p.heartbeat != old(lastSeenHeartbeat) && p.wake)
      ensures effects.otaOnly ==
              (&& p.attached && !p.otaAtGate && p.dueAtGate && !effects.live
               && !(old(wakeReason).SafeguardTimeout? && p.heartbeat == old(lastSeenHeartbeat)))
      ensures effects.acked == (effects.live && p.busy && p.idleInTime && p.succeeded)
      ensures effects.logged == (effects.live && p.busy && p.idleInTime && !p.succeeded)
      ensures p.otaAtCheck ==> cyclesUnconfirmedAndFailing <= old(cyclesUnconfirmedAndFailing)
                               && !reboot.OtaUnconfirmed?
    {
      var ok, stalled, progressed;
      ok, stalled, progressed, effects := Service(p);
      wakeReason := if p.lpWoke then LpWake
                    else if p.dueAtWait && !p.otaAtWait then OtaRetryTimeout else SafeguardTimeout;
      Recover(p.stateRead, ok, stalled, progressed);
    }

    /** The two recovery supervisors at the end of a pass. */
    method Recover(stateRead: bool, ok: bool, stalled: bool, progressed: bool)
      requires reboot.Running?
      modifies this`lpStalledCycles, this`cyclesUnconfirmedAndFailing, this`reboot
      ensures lpStalledCycles == if stalled then old(lpStalledCycles) + 1 else if progressed then 0
                                 else old(lpStalledCycles)
      ensures var given := stalled && lpStalledCycles >= LP_STALL_REBOOT_THRESHOLD;
              var fails := stateRead && unconfirmed && !ok;
              && cyclesUnconfirmedAndFailing == (if given then old(cyclesUnconfirmedAndFailing)
                                                 else if fails then old(cyclesUnconfirmedAndFailing) + 1 else 0)
              && reboot == if given then LpStall
                           else if fails && cyclesUnconfirmedAndFailing >= UNCONFIRMED_OTA_REBOOT_AFTER_CYCLES
                           then OtaUnconfirmed else Running
    {
      if stalled {
        lpStalledCycles := lpStalledCycles + 1;
        if lpStalledCycles >= LP_STALL_REBOOT_THRESHOLD {
          reboot := LpStall;
          return;
        }
      } else if progressed {
        lpStalledCycles := 0;
      }
      if stateRead && unconfirmed && !ok {
        cyclesUnconfirmedAndFailing := cyclesUnconfirmedAndFailing + 1;
        if cyclesUnconfirmedAndFailing >= UNCONFIRMED_OTA_REBOOT_AFTER_CYCLES {
          reboot := OtaUnconfirmed;
        }
      } else {
        cyclesUnconfirmedAndFailing := 0;
      }
    }
  }

  // ---- runs ------------------------------------------------------------------------------------------------

  function Run(unconfirmed: bool, passes: seq<Pass>): (t: Task) {
    if passes == [] then Boot(unconfirmed) else Next(Run(unconfirmed, passes[..|passes| - 1]), passes[|passes| - 1])
  }

  /** The state that pass `n` finds. */
  function Before(unconfirmed: bool, passes: seq<Pass>, n: nat): (t: Task)
    requires n <= |passes|
  {
    Run(unconfirmed, passes[..n])
  }

  ghost predicate StallsAt(unconfirmed: bool, passes: seq<Pass>, n: nat)
    requires n < |passes|
  {
    Stalls(Before(unconfirmed, passes, n), passes[n])
  }

  ghost predicate ProgressesAt(unconfirmed: bool, passes: seq<Pass>, n: nat)
    requires n < |passes|
  {
    Progresses(Before(unconfirmed, passes, n), passes[n])
  }

  /** No attached pass from `m` up to, not including, `n` saw the LP core move. */
  ghost predicate StillFrom(unconfirmed: bool, passes: seq<Pass>, m: nat, n: nat)
    requires n <= |passes|
  {
    forall k :: m <= k < n ==> !ProgressesAt(unconfirmed, passes, k)
  }

  lemma OneStep(unconfirmed: bool, passes: seq<Pass>, n: nat)
    requires n < |passes|
    ensures Before(unconfirmed, passes, n + 1) == Next(Before(unconfirmed, passes, n), passes[n])
  {
    assert passes[..n + 1][..n] == passes[..n];
  }

  /** A stall that is still counted against the LP core: nothing moved since. */
  ghost predicate Pending(unconfirmed: bool, passes: seq<Pass>, m: nat, n: nat)
    requires n <= |passes|
  {
    m < n && StallsAt(unconfirmed, passes, m) && StillFrom(unconfirmed, passes, m, n)
  }

  ghost predicate SomePending(unconfirmed: bool, passes: seq<Pass>, n: nat)
    requires n <= |passes|
  {
    exists m: nat :: Pending(unconfirmed, passes, m, n)
  }

  lemma PendingStep(unconfirmed: bool, passes: seq<Pass>, m: nat, n: nat)
    requires m < n < |passes|
    ensures Pending(unconfirmed, passes, m, n + 1)
            <==> !ProgressesAt(unconfirmed, passes, n) && Pending(unconfirmed, passes, m, n)
  {
  }

  /** A pending stall arises from a stall, is dropped by progress, and is otherwise kept. */
  lemma PendingAfter(unconfirmed: bool, passes: seq<Pass>, n: nat)
    requires n < |passes|
    ensures SomePending(unconfirmed, passes, n + 1)
            <==> StallsAt(unconfirmed, passes, n)
                 || (!ProgressesAt(unconfirmed, passes, n) && SomePending(unconfirmed, passes, n))
  {
    if StallsAt(unconfirmed, passes, n) {
      assert Pending(unconfirmed, passes, n, n + 1);
    } else if SomePending(unconfirmed, passes, n + 1) {
      var m: nat :| Pending(unconfirmed, passes, m, n + 1);
      PendingStep(unconfirmed, passes, m, n);
    } else if SomePending(unconfirmed, passes, n) {
      var m: nat :| Pending(unconfirmed, passes, m, n);
      PendingStep(unconfirmed, passes, m, n);
    }
  }

  lemma RunningCounts(t: Task, p: Pass)
    requires t.reboot.Running? && Next(t, p).reboot.Running? && t.stalled <= 1
    ensures Next(t, p).stalled <= 1
    ensures Next(t, p).stalled == 1 <==> Stalls(t, p) || (!Progresses(t, p) && t.stalled == 1)
  {
  }

  /** Before a restart no stall is counted, or exactly one: the pending one. */
  lemma {:induction false} StalledMeansPending(unconfirmed: bool, passes: seq<Pass>, n: nat)
    requires n <= |passes| && Before(unconfirmed, passes, n).reboot.Running?
    ensures Before(unconfirmed, passes, n).stalled <= 1
    ensures Before(unconfirmed, passes, n).stalled == 1 <==> SomePending(unconfirmed, passes, n)
  {
    if n > 0 {
      OneStep(unconfirmed, passes, n - 1);
      StalledMeansPending(unconfirmed, passes, n - 1);
      PendingAfter(unconfirmed, passes, n - 1);
      RunningCounts(Before(unconfirmed, passes, n - 1), passes[n - 1]);
    }
  }

  /**
   * A pass restarts the chip for a stalled LP core exactly if it is the second wake of two that each
   * timed out on a whole safeguard window with no advance, and no wake between them saw one.
   */
  lemma StallRebootIff(unconfirmed: bool, passes: seq<Pass>, n: nat)
    requires n < |passes| && Before(unconfirmed, passes, n).reboot.Running?
    ensures Before(unconfirmed, passes, n + 1).reboot.LpStall?
            <==> StallsAt(unconfirmed, passes, n) && SomePending(unconfirmed, passes, n)
  {
    OneStep(unconfirmed, passes, n);
    StalledMeansPending(unconfirmed, passes, n);
  }

  /** Once restarted, nothing happens any more. */
  lemma {:induction false} RebootIsFinal(unconfirmed: bool, passes: seq<Pass>, m: nat, n: nat)
    requires m <= n <= |passes| && !Before(unconfirmed, passes, m).reboot.Running?
    ensures Before(unconfirmed, passes, n) == Before(unconfirmed, passes, m)
    decreases n
  {
    if m < n {
      OneStep(unconfirmed, passes, n - 1);
      RebootIsFinal(unconfirmed, passes, m, n - 1);
    }
  }

  /** Pass `k` restarts the chip for a stalled LP core. */
  ghost predicate StallRestartAt(unconfirmed: bool, passes: seq<Pass>, k: nat)
    requires k < |passes|
  {
    Before(unconfirmed, passes, k).reboot.Running? && StallsAt(unconfirmed, passes, k)
    && SomePending(unconfirmed, passes, k)
  }

  /**
   * From the pass on at which an image is confirmed, it goes through any sequence of unattached,
   * unreachable, failing or quiet passes: nothing restarts it but a stalled LP core, and the image stays
   * confirmed.
   */
  lemma {:induction false} ConfirmedSurvives(unconfirmed: bool, passes: seq<Pass>, m: nat, n: nat)
    requires m <= n <= |passes|
    requires Before(unconfirmed, passes, m).reboot.Running? && !Before(unconfirmed, passes, m).unconfirmed
    ensures !Before(unconfirmed, passes, n).unconfirmed && !Before(unconfirmed, passes, n).reboot.OtaUnconfirmed?
    ensures Before(unconfirmed, passes, n).reboot.Running?
            <==> forall k: nat :: m <= k < n ==> !StallRestartAt(unconfirmed, passes, k)
    decreases n
  {
    if m < n {
      ConfirmedSurvives(unconfirmed, passes, m, n - 1);
      OneStep(unconfirmed, passes, n - 1);
      if Before(unconfirmed, passes, n - 1).reboot.Running? {
        ConfirmedStep(unconfirmed, passes, n - 1);
      }
    }
  }

  lemma ConfirmedStep(unconfirmed: bool, passes: seq<Pass>, n: nat)
    requires n < |passes|
    requires Before(unconfirmed, passes, n).reboot.Running? && !Before(unconfirmed, passes, n).unconfirmed
    ensures !Before(unconfirmed, passes, n + 1).unconfirmed
    ensures !Before(unconfirmed, passes, n + 1).reboot.OtaUnconfirmed?
    ensures Before(unconfirmed, passes, n + 1).reboot.Running? <==> !StallRestartAt(unconfirmed, passes, n)
  {
    OneStep(unconfirmed, passes, n);
    StallRebootIff(unconfirmed, passes, n);
    ConfirmedNeverFails(Before(unconfirmed, passes, n), passes[n]);
  }

  lemma ConfirmedNeverFails(t: Task, p: Pass)
    requires t.reboot.Running? && !t.unconfirmed
    ensures !Next(t, p).unconfirmed && !Next(t, p).reboot.OtaUnconfirmed?
  {
  }

  ghost predicate FailsAt(unconfirmed: bool, passes: seq<Pass>, n: nat)
    requires n < |passes|
  {
    Fails(Before(unconfirmed, passes, n), passes[n])
  }

  /** The count of failing cycles is the length of the unbroken run of them that ends now. */
  lemma {:induction false} FailingMeansInARow(unconfirmed: bool, passes: seq<Pass>, n: nat)
    requires n <= |passes| && Before(unconfirmed, passes, n).reboot.Running?
    ensures Before(unconfirmed, passes, n).failing <= n
    ensures forall k :: n - Before(unconfirmed, passes, n).failing <= k < n ==> FailsAt(unconfirmed, passes, k)
    ensures Before(unconfirmed, passes, n).failing < n
            ==> !FailsAt(unconfirmed, passes, n - 1 - Before(unconfirmed, passes, n).failing)
    ensures Before(unconfirmed, passes, n).failing < UNCONFIRMED_OTA_REBOOT_AFTER_CYCLES
  {
    if n > 0 {
      OneStep(unconfirmed, passes, n - 1);
      FailingMeansInARow(unconfirmed, passes, n - 1);
    }
  }

  /** An unconfirmed image is given up exactly at the fifth unhealthy cycle in a row. */
  lemma UnconfirmedRebootIff(unconfirmed: bool, passes: seq<Pass>, n: nat)
    requires n < |passes| && Before(unconfirmed, passes, n).reboot.Running?
    requires !Before(unconfirmed, passes, n + 1).reboot.LpStall?
    ensures Before(unconfirmed, passes, n + 1).reboot.OtaUnconfirmed?
            <==> n >= 4 && forall k :: n - 4 <= k <= n ==> FailsAt(unconfirmed, passes, k)
  {
    OneStep(unconfirmed, passes, n);
    FailingMeansInARow(unconfirmed, passes, n);
    var f := Before(unconfirmed, passes, n).failing;
    if n >= 4 && f < 4 {
      var k := n - 1 - f;
      assert n - 4 <= k <= n && !FailsAt(unconfirmed, passes, k);
    } else if f == 4 {
      assert Before(unconfirmed, passes, n + 1).reboot.OtaUnconfirmed? <==> FailsAt(unconfirmed, passes, n);
    }
  }

  // ---- what a pass has seen ------------------------------------------------------------------------------------

  /** The snapshots that the attached ones of the first `n` passes read. */
  function Seen(passes: seq<Pass>, n: nat): (snaps: seq<Delivery.Snapshot>)
    requires n <= |passes|
  {
    if n == 0 then []
    else
      Seen(passes, n - 1)
      + if passes[n - 1].attached then [Delivery.Snapshot(passes[n - 1].heartbeat, passes[n - 1].wake)] else []
  }

  lemma {:induction false} LastSeenIsDelivery(unconfirmed: bool, passes: seq<Pass>, n: nat)
    requires n <= |passes| && Before(unconfirmed, passes, n).reboot.Running?
    ensures Before(unconfirmed, passes, n).lastSeen == Delivery.LastSeen(Seen(passes, n), |Seen(passes, n)|)
  {
    if n > 0 {
      OneStep(unconfirmed, passes, n - 1);
      LastSeenIsDelivery(unconfirmed, passes, n - 1);
    }
  }

  /**
   * A pass publishes live exactly if it is attached, no download is running and the snapshot it reads is
   * one that Delivery.Publishes: what Delivery proves about successive snapshots is about these passes.
   */
  lemma LiveIffPublishes(unconfirmed: bool, passes: seq<Pass>, n: nat, t: Task, snaps: seq<Delivery.Snapshot>)
    requires n < |passes| && t == Before(unconfirmed, passes, n) && t.reboot.Running? && snaps == Seen(passes, n + 1)
    ensures Serves(t, passes[n]) && ShouldWake(t, passes[n])
            <==> passes[n].attached && !passes[n].otaAtGate && Delivery.Publishes(snaps, |snaps| - 1)
  {
    if passes[n].attached {
      LastSeenIsDelivery(unconfirmed, passes, n);
      LastSeenOfMore(passes, n, snaps);
      ServesIff(t, passes[n]);
    }
  }

  lemma LastSeenOfMore(passes: seq<Pass>, n: nat, snaps: seq<Delivery.Snapshot>)
    requires n < |passes| && passes[n].attached && snaps == Seen(passes, n + 1)
    ensures snaps == Seen(passes, n) + [Delivery.Snapshot(passes[n].heartbeat, passes[n].wake)]
    ensures Delivery.LastSeen(snaps, |snaps| - 1) == Delivery.LastSeen(Seen(passes, n), |Seen(passes, n)|)
  {
  }

  lemma ServesIff(t: Task, p: Pass)
    requires p.attached
    ensures Serves(t, p) && ShouldWake(t, p)
            <==> !p.otaAtGate && Delivery.Actionable(t.lastSeen, p.heartbeat, p.wake)
  {
  }

  // ---- passes told by what they read -----------------------------------------------------------------------------

  /** What is remembered is the newest attached look, and 0 before the first. */
  lemma {:induction false} RememberedIs(passes: seq<Pass>, k: int, n: nat)
    requires -1 <= k < n <= |passes| && (k >= 0 ==> passes[k].attached)
    requires forall j :: k < j < n ==> !passes[j].attached
    ensures Remembered(passes, n) == if k < 0 then 0 else passes[k].heartbeat
  {
    if k < n - 1 {
      RememberedIs(passes, k, n - 1);
    }
  }

  /** The wait before pass `n` timed out, and was one for a whole safeguard window. */
  ghost predicate AfterSafeguard(passes: seq<Pass>, n: nat)
    requires n <= |passes|
  {
    n > 0 && !passes[n - 1].lpWoke && !(passes[n - 1].dueAtWait && !passes[n - 1].otaAtWait)
  }

  lemma ReasonIs(unconfirmed: bool, passes: seq<Pass>, n: nat)
    requires n <= |passes| && Before(unconfirmed, passes, n).reboot.Running?
    ensures Before(unconfirmed, passes, n).reason.SafeguardTimeout? <==> AfterSafeguard(passes, n)
    ensures Before(unconfirmed, passes, n).reason.LpWake? <==> n == 0 || passes[n - 1].lpWoke
  {
    if n > 0 {
      OneStep(unconfirmed, passes, n - 1);
      RanUntil(unconfirmed, passes, n - 1, n);
    }
  }

  /** Pass `n` publishes the LP core's values: it reads a raised flag with a heartbeat it has not seen. */
  ghost predicate PublishesLive(passes: seq<Pass>, n: nat)
    requires n < |passes|
  {
    var p := passes[n];
    p.attached && !p.otaAtGate && p.heartbeat != Remembered(passes, n) && p.wake
  }

  /** Pass `n` publishes without values, only to start the pending update. */
  ghost predicate PublishesOtaOnly(passes: seq<Pass>, n: nat)
    requires n < |passes|
  {
    var p, same := passes[n], passes[n].heartbeat == Remembered(passes, n);
    p.attached && !p.otaAtGate && p.dueAtGate && (same || !p.wake) && !(same && AfterSafeguard(passes, n))
  }

  /** Which passes publish, and which of them only for the update, over any run. */
  lemma OtaOnlyIff(unconfirmed: bool, passes: seq<Pass>, n: nat, t: Task)
    requires n < |passes| && t == Before(unconfirmed, passes, n) && t.reboot.Running?
    ensures Serves(t, passes[n]) && ShouldWake(t, passes[n]) <==> PublishesLive(passes, n)
    ensures Serves(t, passes[n]) && !ShouldWake(t, passes[n]) <==> PublishesOtaOnly(passes, n)
  {
    RemembersLastLook(unconfirmed, passes, n);
    ReasonIs(unconfirmed, passes, n);
    ServesMeans(t, passes[n]);
  }

  lemma ServesMeans(t: Task, p: Pass)
    ensures Serves(t, p) && ShouldWake(t, p)
            <==> p.attached && !p.otaAtGate && p.heartbeat != t.lastSeen && p.wake
    ensures Serves(t, p) && !ShouldWake(t, p)
            <==> && p.attached && !p.otaAtGate && p.dueAtGate && !(p.heartbeat != t.lastSeen && p.wake)
                 && !(t.reason.SafeguardTimeout? && p.heartbeat == t.lastSeen)
  {
    SameHeartbeat(p.heartbeat, t.lastSeen);
  }

  /** Pass `n` publishes and the broker confirms it in time. */
  ghost predicate Delivers(passes: seq<Pass>, n: nat)
    requires n < |passes|
  {
    (PublishesLive(passes, n) || PublishesOtaOnly(passes, n))
    && passes[n].busy && passes[n].idleInTime && passes[n].succeeded
  }

  lemma DeliversIff(unconfirmed: bool, passes: seq<Pass>, n: nat, t: Task)
    requires n < |passes| && t == Before(unconfirmed, passes, n) && t.reboot.Running?
    ensures PublishedOk(t, passes[n]) <==> Delivers(passes, n)
  {
    OtaOnlyIff(unconfirmed, passes, n, t);
  }

  /** Pass `k` is the first of a boot that the broker confirms. */
  ghost predicate FirstDelivery(passes: seq<Pass>, k: nat)
    requires k < |passes|
  {
    Delivers(passes, k) && forall j :: 0 <= j < k ==> !Delivers(passes, j)
  }

  /** The image stays on trial until the boot's first confirmed publish, and beyond it if it cannot be marked then. */
  ghost predicate OnTrial(unconfirmed: bool, passes: seq<Pass>, n: nat)
    requires n <= |passes|
  {
    unconfirmed && forall k :: 0 <= k < n && FirstDelivery(passes, k) ==> !passes[k].markStateRead
  }

  ghost predicate AnyDelivery(passes: seq<Pass>, n: nat)
    requires n <= |passes|
  {
    exists k :: 0 <= k < n && Delivers(passes, k)
  }

  lemma {:induction false} ConfirmedAt(unconfirmed: bool, passes: seq<Pass>, n: nat)
    requires n <= |passes| && Before(unconfirmed, passes, n).reboot.Running?
    ensures Before(unconfirmed, passes, n).checked <==> AnyDelivery(passes, n)
    ensures Before(unconfirmed, passes, n).unconfirmed <==> OnTrial(unconfirmed, passes, n)
  {
    if n > 0 {
      OneStep(unconfirmed, passes, n - 1);
      RanUntil(unconfirmed, passes, n - 1, n);
      ConfirmedAt(unconfirmed, passes, n - 1);
      DeliversIff(unconfirmed, passes, n - 1, Before(unconfirmed, passes, n - 1));
      TrialStep(unconfirmed, passes, n - 1);
    }
  }

  lemma TrialStep(unconfirmed: bool, passes: seq<Pass>, n: nat)
    requires n < |passes|
    ensures AnyDelivery(passes, n + 1) <==> AnyDelivery(passes, n) || Delivers(passes, n)
    ensures OnTrial(unconfirmed, passes, n + 1)
            <==> OnTrial(unconfirmed, passes, n)
                 && !(Delivers(passes, n) && !AnyDelivery(passes, n) && passes[n].markStateRead)
  {
    assert FirstDelivery(passes, n) <==> Delivers(passes, n) && !AnyDelivery(passes, n);
  }

  /**
   * The cycles that count towards giving an image up, told by the passes alone: the image is still on
   * trial, no download is running at the check, and the pass was not attached, found the LP core stalled,
   * or published without a confirmation in time.
   */
  lemma FailsIff(unconfirmed: bool, passes: seq<Pass>, n: nat)
    requires n < |passes| && Before(unconfirmed, passes, n).reboot.Running?
    ensures var p := passes[n];
            FailsAt(unconfirmed, passes, n)
            <==> && p.stateRead && OnTrial(unconfirmed, passes, n + 1) && !p.otaAtCheck
                 && (|| !p.attached
                     || (!p.otaAtGate && AfterSafeguard(passes, n) && p.heartbeat == Remembered(passes, n))
                     || ((PublishesLive(passes, n) || PublishesOtaOnly(passes, n))
                         && !(p.busy && p.idleInTime && p.succeeded)))
  {
    var t := Before(unconfirmed, passes, n);
    ConfirmedAt(unconfirmed, passes, n);
    DeliversIff(unconfirmed, passes, n, t);
    OtaOnlyIff(unconfirmed, passes, n, t);
    TrialStep(unconfirmed, passes, n);
    RemembersLastLook(unconfirmed, passes, n);
    ReasonIs(unconfirmed, passes, n);
    StallMeans(t, passes[n]);
  }

  /**
   * A download protects the image that runs it: over any passes that end with one in progress nothing
   * counts against the image, and if it was already in progress when they began, nothing restarts the chip.
   */
  lemma {:induction false} DownloadIsHealthy(unconfirmed: bool, passes: seq<Pass>, m: nat, n: nat)
    requires m <= n <= |passes| && Before(unconfirmed, passes, m).reboot.Running?
    requires forall k :: m <= k < n ==> passes[k].otaAtCheck
    ensures !Before(unconfirmed, passes, n).reboot.OtaUnconfirmed?
    ensures m < n && Before(unconfirmed, passes, n).reboot.Running? ==> Before(unconfirmed, passes, n).failing == 0
    ensures (forall k :: m <= k < n ==> passes[k].otaAtGate) ==> Before(unconfirmed, passes, n).reboot.Running?
    decreases n
  {
    if m < n {
      OneStep(unconfirmed, passes, n - 1);
      DownloadIsHealthy(unconfirmed, passes, m, n - 1);
    }
  }

  // ---- how long a silence it takes ----------------------------------------------------------------------------

  /**
   * Pass `k` takes its snapshot at the time `at[k]`, when the LP core has begun `beats(at[k])` invocations.
   * It reads that heartbeat, or zeroes if the memory was locked then. A wait that times out on the
   * safeguard lasts at least `window`.
   */
  ghost predicate Timed(unconfirmed: bool, passes: seq<Pass>, at: seq<nat>, beats: nat -> nat, locked: nat -> bool,
                        window: nat) {
    && |at| == |passes|
    && (forall k :: 0 < k < |at| ==> at[k - 1] <= at[k])
    && (forall k :: 0 < k < |at| && Before(unconfirmed, passes, k).reason.SafeguardTimeout?
                    ==> at[k - 1] + window <= at[k])
    && (forall k :: 0 <= k < |at| ==> Reads(passes[k], beats(at[k]), locked(at[k])))
  }

  predicate Reads(p: Pass, beat: nat, locked: bool) {
    p.attached ==> p.heartbeat == Wrap32(beat) || (locked && p.heartbeat == 0 && !p.wake)
  }

  /** The LP core's count of invocations: it starts at zero, never goes back, and stays below 2^32 up to `end`. */
  ghost predicate Beating(beats: nat -> nat, end: nat) {
    && beats(0) == 0 && beats(end) < 0x1_0000_0000
    && forall u: nat, v: nat :: u <= v ==> beats(u) <= beats(v)
  }

  /** When the loop last looked at the heartbeat before pass `n`; time 0 is the boot. */
  ghost function LastLook(passes: seq<Pass>, at: seq<nat>, n: nat): (u: nat)
    requires n <= |passes| == |at|
  {
    if n == 0 then 0 else if passes[n - 1].attached then at[n - 1] else LastLook(passes, at, n - 1)
  }

  /** What the last attached pass before pass `n` read. */
  ghost function Remembered(passes: seq<Pass>, n: nat): (h: uint32)
    requires n <= |passes|
  {
    if n == 0 then 0 else if passes[n - 1].attached then passes[n - 1].heartbeat else Remembered(passes, n - 1)
  }

  lemma {:induction false} RemembersLastLook(unconfirmed: bool, passes: seq<Pass>, n: nat)
    requires n <= |passes| && Before(unconfirmed, passes, n).reboot.Running?
    ensures Before(unconfirmed, passes, n).lastSeen == Remembered(passes, n)
  {
    if n > 0 {
      OneStep(unconfirmed, passes, n - 1);
      RemembersLastLook(unconfirmed, passes, n - 1);
    }
  }

  lemma {:induction false} LookRead(unconfirmed: bool, passes: seq<Pass>, at: seq<nat>, beats: nat -> nat,
                                   locked: nat -> bool, window: nat, n: nat)
    requires Timed(unconfirmed, passes, at, beats, locked, window) && beats(0) == 0 && n <= |passes|
    ensures Remembered(passes, n) == 0 || Remembered(passes, n) == Wrap32(beats(LastLook(passes, at, n)))
    ensures if n > 0 then LastLook(passes, at, n) <= at[n - 1] else LastLook(passes, at, n) == 0
  {
    if n > 0 {
      LookRead(unconfirmed, passes, at, beats, locked, window, n - 1);
      assert Reads(passes[n - 1], beats(at[n - 1]), locked(at[n - 1]));
    }
  }

  lemma SameHeartbeat(a: uint32, b: uint32)
    ensures Wrap32(a - b) == 0 <==> a == b
  {
  }

  /** The LP core began no invocation after `from` up to `to`. */
  ghost predicate Silent(beats: nat -> nat, from: nat, to: nat) {
    from <= to && forall u: nat :: from <= u <= to ==> beats(u) == beats(from)
  }

  lemma {:induction false} AtGrows(unconfirmed: bool, passes: seq<Pass>, at: seq<nat>, beats: nat -> nat,
                                  locked: nat -> bool, window: nat, j: nat, k: nat)
    requires Timed(unconfirmed, passes, at, beats, locked, window) && j <= k < |passes|
    ensures at[j] <= at[k]
    decreases k
  {
    if j < k {
      AtGrows(unconfirmed, passes, at, beats, locked, window, j, k - 1);
    }
  }

  /** An attached pass after a whole safeguard window, with no download running. */
  ghost predicate TimedOut(unconfirmed: bool, passes: seq<Pass>, k: nat)
    requires k < |passes|
  {
    passes[k].attached && !passes[k].otaAtGate && Before(unconfirmed, passes, k).reason.SafeguardTimeout?
  }

  /** Every look from pass `m` up to, not including, `n` read the same. */
  ghost predicate AllRead(passes: seq<Pass>, m: nat, n: nat, h: uint32)
    requires n <= |passes|
  {
    forall k: nat :: m <= k < n && passes[k].attached ==> passes[k].heartbeat == h
  }

  lemma ProgressMeans(t: Task, p: Pass)
    ensures Progresses(t, p) <==> p.attached && p.heartbeat != t.lastSeen
  {
    SameHeartbeat(p.heartbeat, t.lastSeen);
  }

  lemma ProgressIff(unconfirmed: bool, passes: seq<Pass>, k: nat, t: Task)
    requires k < |passes| && t == Before(unconfirmed, passes, k) && t.reboot.Running?
    ensures Progresses(t, passes[k]) <==> passes[k].attached && passes[k].heartbeat != Remembered(passes, k)
  {
    RemembersLastLook(unconfirmed, passes, k);
    ProgressMeans(t, passes[k]);
  }

  /** While nothing progresses every look reads what was remembered, and only then. */
  lemma {:induction false} StillReadsTheSame(unconfirmed: bool, passes: seq<Pass>, m: nat, n: nat)
    requires m <= n <= |passes| && forall k: nat :: m <= k < n ==> Before(unconfirmed, passes, k).reboot.Running?
    ensures StillFrom(unconfirmed, passes, m, n) <==> AllRead(passes, m, n, Remembered(passes, m))
    ensures StillFrom(unconfirmed, passes, m, n) ==> Remembered(passes, n) == Remembered(passes, m)
    decreases n
  {
    if m < n {
      StillReadsTheSame(unconfirmed, passes, m, n - 1);
      ProgressIff(unconfirmed, passes, n - 1, Before(unconfirmed, passes, n - 1));
      assert ProgressesAt(unconfirmed, passes, n - 1)
             <==> passes[n - 1].attached && passes[n - 1].heartbeat != Remembered(passes, n - 1);
    }
  }

  lemma RanUntil(unconfirmed: bool, passes: seq<Pass>, m: nat, n: nat)
    requires m <= n <= |passes| && Before(unconfirmed, passes, n).reboot.Running?
    ensures Before(unconfirmed, passes, m).reboot.Running?
  {
    if !Before(unconfirmed, passes, m).reboot.Running? {
      RebootIsFinal(unconfirmed, passes, m, n);
    }
  }

  /** Two timed-out looks, and all looks between and including them read what was remembered before them. */
  ghost predicate StallPair(unconfirmed: bool, passes: seq<Pass>, m: nat, n: nat)
    requires n < |passes|
  {
    && m < n && TimedOut(unconfirmed, passes, m) && TimedOut(unconfirmed, passes, n)
    && AllRead(passes, m, n + 1, Remembered(passes, m))
  }

  lemma StallMeans(t: Task, p: Pass)
    ensures Stalls(t, p) <==> p.attached && !p.otaAtGate && t.reason.SafeguardTimeout? && p.heartbeat == t.lastSeen
  {
    SameHeartbeat(p.heartbeat, t.lastSeen);
  }

  lemma StallsIff(unconfirmed: bool, passes: seq<Pass>, k: nat, t: Task)
    requires k < |passes| && t == Before(unconfirmed, passes, k) && t.reboot.Running?
    ensures Stalls(t, passes[k]) <==> TimedOut(unconfirmed, passes, k) && passes[k].heartbeat == Remembered(passes, k)
  {
    RemembersLastLook(unconfirmed, passes, k);
    StallMeans(t, passes[k]);
  }

  lemma PairIff(unconfirmed: bool, passes: seq<Pass>, m: nat, n: nat)
    requires m < n < |passes| && Before(unconfirmed, passes, n).reboot.Running?
    ensures StallPair(unconfirmed, passes, m, n)
            <==> StallsAt(unconfirmed, passes, n) && Pending(unconfirmed, passes, m, n)
  {
    forall k: nat | m <= k < n
      ensures Before(unconfirmed, passes, k).reboot.Running?
    {
      RanUntil(unconfirmed, passes, k, n);
    }
    StallsIff(unconfirmed, passes, m, Before(unconfirmed, passes, m));
    StallsIff(unconfirmed, passes, n, Before(unconfirmed, passes, n));
    StillReadsTheSame(unconfirmed, passes, m, n);
  }

  /** A restart for a stalled LP core, told by the looks alone. */
  lemma StallRestartLooks(unconfirmed: bool, passes: seq<Pass>, n: nat)
    requires n < |passes| && Before(unconfirmed, passes, n).reboot.Running?
    ensures Before(unconfirmed, passes, n + 1).reboot.LpStall?
            <==> exists m: nat :: StallPair(unconfirmed, passes, m, n)
  {
    StallRebootIff(unconfirmed, passes, n);
    if StallsAt(unconfirmed, passes, n) && SomePending(unconfirmed, passes, n) {
      var m: nat :| Pending(unconfirmed, passes, m, n);
      PairIff(unconfirmed, passes, m, n);
      assert StallPair(unconfirmed, passes, m, n);
    }
    if m: nat :| StallPair(unconfirmed, passes, m, n) {
      PairIff(unconfirmed, passes, m, n);
    }
  }

  /** A look that read zeroes although the LP core had begun an invocation. */
  ghost predicate Zeroed(p: Pass, beat: nat) {
    p.attached && p.heartbeat == 0 && beat > 0
  }

  /** No invocation began from the look before pass `m` up to pass `n`, at least two windows later. */
  ghost predicate SilentPair(passes: seq<Pass>, at: seq<nat>, beats: nat -> nat, window: nat, m: nat, n: nat)
    requires m < n < |passes| == |at|
  {
    && LastLook(passes, at, m) + 2 * window <= at[n] && Silent(beats, LastLook(passes, at, m), at[n])
    && Remembered(passes, m) == Wrap32(beats(at[n]))
    && forall k: nat :: m <= k <= n && passes[k].attached ==> !Zeroed(passes[k], beats(at[k]))
  }

  /** A zero was remembered, and every look from `m` to `n` was zeroed or came before the first invocation. */
  ghost predicate ZeroPair(passes: seq<Pass>, at: seq<nat>, beats: nat -> nat, m: nat, n: nat)
    requires m < n < |passes| == |at|
  {
    && Remembered(passes, m) == 0 && Zeroed(passes[n], beats(at[n]))
    && forall k: nat :: m <= k <= n && passes[k].attached ==> Zeroed(passes[k], beats(at[k])) || beats(at[k]) == 0
  }

  /** Two timed-out looks that make a restart: over a silence, or over zeroed looks. */
  ghost predicate Alarms(unconfirmed: bool, passes: seq<Pass>, at: seq<nat>, beats: nat -> nat, window: nat,
                         m: nat, n: nat)
    requires n < |passes| == |at|
  {
    && m < n && TimedOut(unconfirmed, passes, m) && TimedOut(unconfirmed, passes, n)
    && (SilentPair(passes, at, beats, window, m, n) || ZeroPair(passes, at, beats, m, n))
  }

  /** Up to `end` no heartbeat wraps, so a look reads the count itself or zero. */
  lemma ReadsCount(p: Pass, beats: nat -> nat, u: nat, end: nat, locked: bool)
    requires Beating(beats, end) && u <= end && Reads(p, beats(u), locked) && p.attached
    ensures p.heartbeat == beats(u) || (p.heartbeat == 0 && Zeroed(p, beats(u)))
  {
    assert beats(u) <= beats(end);
  }

  lemma TwoWindows(unconfirmed: bool, passes: seq<Pass>, at: seq<nat>, beats: nat -> nat, locked: nat -> bool,
                   window: nat, m: nat, n: nat)
    requires Timed(unconfirmed, passes, at, beats, locked, window) && beats(0) == 0 && m < n < |passes|
    requires TimedOut(unconfirmed, passes, m) && TimedOut(unconfirmed, passes, n)
    ensures LastLook(passes, at, m) + window <= at[m] && at[m] + window <= at[n]
  {
    LookRead(unconfirmed, passes, at, beats, locked, window, m);
    assert passes[..0] == [];
    AtGrows(unconfirmed, passes, at, beats, locked, window, m, n - 1);
  }

  /** A pair of equal looks is a silence if what they read was counted, and else a row of zeroes. */
  lemma PairNeeds(unconfirmed: bool, passes: seq<Pass>, at: seq<nat>, beats: nat -> nat, locked: nat -> bool,
                  window: nat, m: nat, n: nat)
    requires Timed(unconfirmed, passes, at, beats, locked, window) && n < |passes| && Beating(beats, at[n])
    requires StallPair(unconfirmed, passes, m, n)
    ensures SilentPair(passes, at, beats, window, m, n) || ZeroPair(passes, at, beats, m, n)
  {
    TwoWindows(unconfirmed, passes, at, beats, locked, window, m, n);
    LookRead(unconfirmed, passes, at, beats, locked, window, m);
    var h, u := Remembered(passes, m), LastLook(passes, at, m);
    assert passes[n].heartbeat == h;
    ReadsCount(passes[n], beats, at[n], at[n], locked(at[n]));
    forall k: nat | m <= k <= n && passes[k].attached
      ensures passes[k].heartbeat == h && at[k] <= at[n] && (h == beats(at[k]) || (h == 0 && beats(at[k]) > 0))
    {
      AtGrows(unconfirmed, passes, at, beats, locked, window, k, n);
      assert Reads(passes[k], beats(at[k]), locked(at[k]));
      ReadsCount(passes[k], beats, at[k], at[n], locked(at[k]));
    }
    if h == beats(at[n]) {
      CountedIsSilent(beats, at[n], u, at[n], h);
    }
  }

  lemma CountedIsSilent(beats: nat -> nat, end: nat, from: nat, to: nat, h: uint32)
    requires Beating(beats, end) && from <= to <= end && h == beats(to) && (h == 0 || h == Wrap32(beats(from)))
    ensures Silent(beats, from, to)
  {
    assert beats(from) <= beats(to) <= beats(end);
    forall u: nat | from <= u <= to
      ensures beats(u) == beats(from)
    {
      assert beats(from) <= beats(u) <= beats(to);
    }
  }

  lemma AlarmIsPair(unconfirmed: bool, passes: seq<Pass>, at: seq<nat>, beats: nat -> nat, locked: nat -> bool,
                    window: nat, m: nat, n: nat)
    requires Timed(unconfirmed, passes, at, beats, locked, window) && n < |passes| && Beating(beats, at[n])
    requires Alarms(unconfirmed, passes, at, beats, window, m, n)
    ensures StallPair(unconfirmed, passes, m, n)
  {
    LookRead(unconfirmed, passes, at, beats, locked, window, m);
    TwoWindows(unconfirmed, passes, at, beats, locked, window, m, n);
    var u := LastLook(passes, at, m);
    forall k: nat | m <= k <= n && passes[k].attached
      ensures passes[k].heartbeat == Remembered(passes, m)
    {
      AtGrows(unconfirmed, passes, at, beats, locked, window, m, k);
      AtGrows(unconfirmed, passes, at, beats, locked, window, k, n);
      assert Reads(passes[k], beats(at[k]), locked(at[k]));
      if SilentPair(passes, at, beats, window, m, n) {
        assert beats(at[k]) == beats(u) && beats(at[n]) == beats(u);
      }
    }
  }

  /**
   * Whatever the looks read, a pass restarts the chip for a stalled LP core exactly if it is the second of
   * two timed-out ones over a silence of two whole windows, or over looks that were all zeroed on a
   * remembered zero: the latter while the LP core works.
   */
  lemma StallAlarmIff(unconfirmed: bool, passes: seq<Pass>, at: seq<nat>, beats: nat -> nat, locked: nat -> bool,
                        window: nat, n: nat)
    requires Timed(unconfirmed, passes, at, beats, locked, window) && n < |passes| && Beating(beats, at[n])
    requires Before(unconfirmed, passes, n).reboot.Running?
    ensures Before(unconfirmed, passes, n + 1).reboot.LpStall?
            <==> exists m: nat :: Alarms(unconfirmed, passes, at, beats, window, m, n)
  {
    StallRestartLooks(unconfirmed, passes, n);
    if m: nat :| StallPair(unconfirmed, passes, m, n) {
      PairNeeds(unconfirmed, passes, at, beats, locked, window, m, n);
      assert Alarms(unconfirmed, passes, at, beats, window, m, n);
    }
    if m: nat :| Alarms(unconfirmed, passes, at, beats, window, m, n) {
      AlarmIsPair(unconfirmed, passes, at, beats, locked, window, m, n);
    }
  }
}
