/** The TX-power trial/revert machine of main/runtime_config.cpp, within one boot. */
module TxPower {
  import opened Words

  const TABLE_MAX_DBM: int := 20
  const DBM_MIN: int := -15
  const DBM_MAX: int := 20
  const REVERT_AFTER_CYCLES: nat := 3

  /** `radio` is the power the transceiver is really set to, which the firmware cannot read back. */
  datatype State = State(
    knownGood: int, pending: int, hasPending: bool, unconfirmed: nat, active: int,
    firstAttachDone: bool, rejected: int, hasRejected: bool, radio: int)

  /** One call of the module; `radioOk` is the outcome of the set-power call it may make. */
  datatype Event =
    | Receive(dbm: int, radioOk: bool)
    | FirstAttach(radioOk: bool)
    | Report(ok: bool, radioOk: bool)
    | PinForOta(radioOk: bool)
    | UnpinAfterOta(radioOk: bool)

  /** The value most recently accepted, on trial or not: what the device reports as in effect. */
  function Accepted(s: State): (dbm: int) {
    if s.hasPending then s.pending else s.knownGood
  }

  function SetRadio(s: State, dbm: int, radioOk: bool): (t: State) {
    if radioOk then s.(radio := dbm) else s
  }

  function SetActive(s: State, dbm: int, radioOk: bool): (t: State) {
    if radioOk then s.(radio := dbm, active := dbm) else s
  }

  function Discard(s: State): (t: State) {
    s.(rejected := s.pending, hasRejected := true, hasPending := false, unconfirmed := 0)
  }

  function Step(s: State, e: Event): (t: State) {
    match e
    case Receive(dbm, radioOk) =>
      var clamped := Clamp(dbm, DBM_MIN, DBM_MAX);
      if (s.hasRejected && dbm == s.rejected) || clamped == Accepted(s) then s
      else SetActive(s.(pending := clamped, hasPending := true, unconfirmed := 0, hasRejected := false),
                     clamped, radioOk)
    case FirstAttach(radioOk) =>
      if s.firstAttachDone then s
      else
        var t := if s.hasPending then Discard(s) else s;
        SetActive(t.(firstAttachDone := true), t.knownGood, radioOk)
    case Report(ok, radioOk) =>
      if !s.hasPending then s
      else if ok then s.(knownGood := s.pending, hasPending := false, unconfirmed := 0)
      else if s.unconfirmed + 1 < REVERT_AFTER_CYCLES then s.(unconfirmed := s.unconfirmed + 1)
      else SetActive(Discard(s), s.knownGood, radioOk)
    case PinForOta(radioOk) => SetRadio(s, TABLE_MAX_DBM, radioOk)
    case UnpinAfterOta(radioOk) => SetRadio(s, s.active, radioOk)
  }

  /** The static state of the module and the calls that change it, one at a time. */
  class TxPowerControl {
    var knownGood: int
    var pending: int
    var hasPending: bool
    var unconfirmed: nat
    var active: int
    var firstAttachDone: bool
    var rejected: int
    var hasRejected: bool
    var radio: int

    ghost function View(): (s: State)
      reads this
    {
      State(knownGood, pending, hasPending, unconfirmed, active, firstAttachDone, rejected, hasRejected, radio)
    }

    /** Boot: a trial stored by an earlier boot is loaded, the radio is at the table maximum. */
    constructor (bootKnownGood: int, storedTrial: bool, storedPending: int)
      ensures Fresh(View()) && hasPending == storedTrial && (storedTrial ==> pending == storedPending)
      ensures active == radio == TABLE_MAX_DBM
      ensures knownGood == Clamp(bootKnownGood, DBM_MIN, DBM_MAX)
    {
      knownGood := Clamp(bootKnownGood, DBM_MIN, DBM_MAX);
      pending := if storedTrial then storedPending else TABLE_MAX_DBM;
      hasPending := storedTrial;
      unconfirmed, rejected := 0, 0;
      active, radio := TABLE_MAX_DBM, TABLE_MAX_DBM;
      firstAttachDone, hasRejected := false, false;
    }

    method SetPower(dbm: int, radioOk: bool)
      modifies this`active, this`radio
      ensures View() == SetActive(old(View()), dbm, radioOk)
    {
      if radioOk {
        active, radio := dbm, dbm;
      }
    }

    method DiscardTrial()
      modifies this`rejected, this`hasRejected, this`hasPending, this`unconfirmed
      ensures View() == Discard(old(View()))
    {
      rejected, hasRejected := pending, true;
      hasPending, unconfirmed := false, 0;
    }

    /** A cfg/tx_power_dbm value applied by the publish cycle; `echo` is what goes back to the broker. */
    method ApplyReceived(dbm: int, radioOk: bool) returns (echo: bool, shown: int)
      modifies this
      ensures View() == Step(old(View()), Receive(dbm, radioOk))
      ensures shown == Accepted(View()) && (echo <==> dbm != Accepted(old(View())))
    {
      var accepted := if hasPending then pending else knownGood;
      if hasRejected && dbm == rejected {
        return accepted != rejected, accepted;
      }
      shown := Clamp(dbm, DBM_MIN, DBM_MAX);
      echo := dbm != accepted;
      if shown != accepted {
        pending, hasPending, unconfirmed, hasRejected := shown, true, 0, false;
        SetPower(shown, radioOk);
      }
    }

    method NoteFirstAttach(radioOk: bool)
      modifies this
      ensures View() == Step(old(View()), FirstAttach(radioOk))
    {
      if firstAttachDone {
        return;
      }
      firstAttachDone := true;
      if hasPending {
        DiscardTrial();
      }
      SetPower(if hasPending then pending else knownGood, radioOk);
    }

    method NoteCycleResult(ok: bool, radioOk: bool)
      modifies this
      ensures View() == Step(old(View()), Report(ok, radioOk))
      ensures !old(hasPending) ==> View() == old(View())
      ensures old(hasPending) && ok ==> knownGood == old(pending) && !hasPending && unconfirmed == 0
      ensures old(hasPending) && !ok && old(unconfirmed) < 2 ==>
                && hasPending && pending == old(pending) && unconfirmed == old(unconfirmed) + 1
                && knownGood == old(knownGood)
      ensures old(hasPending) && !ok && old(unconfirmed) >= 2 ==>
                && !hasPending && hasRejected && rejected == old(pending) && unconfirmed == 0
                && knownGood == old(knownGood) && (radioOk ==> active == radio == knownGood)
    {
      if !hasPending {
        return;
      }
      if ok {
        knownGood, hasPending, unconfirmed := pending, false, 0;
        return;
      }
      unconfirmed := unconfirmed + 1;
      if unconfirmed < REVERT_AFTER_CYCLES {
        return;
      }
      DiscardTrial();
      SetPower(knownGood, radioOk);
    }

    method PinMaxForOta(radioOk: bool)
      modifies this`radio
      ensures View() == Step(old(View()), PinForOta(radioOk))
    {
      if radioOk {
        radio := TABLE_MAX_DBM;
      }
    }

    method UnpinAfterOtaWindow(radioOk: bool)
      modifies this`radio
      ensures View() == Step(old(View()), UnpinAfterOta(radioOk))
    {
      if radioOk {
        radio := active;
      }
    }
  }

  /** The state at boot, whatever the configuration and the flash hold. */
  ghost predicate Fresh(s: State) {
    && DBM_MIN <= s.knownGood <= DBM_MAX
    && s.unconfirmed == 0 && !s.firstAttachDone && !s.hasRejected
    && s.active == s.radio == TABLE_MAX_DBM
  }

  function Run(s: State, events: seq<Event>): (t: State) {
    if events == [] then s else Step(Run(s, events[..|events| - 1]), events[|events| - 1])
  }

  /** The event puts a value on trial. */
  predicate StartsTrial(s: State, e: Event) {
    e.Receive? && Step(s, e).hasPending && (!s.hasPending || Step(s, e).pending != s.pending)
  }

  /** How many cycles failed since the running trial started. */
  function Failures(s: State, events: seq<Event>): (n: nat) {
    if events == [] then s.unconfirmed
    else
      var before, e := events[..|events| - 1], events[|events| - 1];
      if StartsTrial(Run(s, before), e) then 0
      else Failures(s, before) + if e.Report? && !e.ok then 1 else 0
  }

  ghost predicate Sane(s: State) {
    && s.unconfirmed < REVERT_AFTER_CYCLES
    && DBM_MIN <= s.knownGood <= DBM_MAX
    && (s.firstAttachDone && s.hasPending ==> DBM_MIN <= s.pending <= DBM_MAX)
  }

  lemma {:induction false} RunStaysSane(s: State, events: seq<Event>)
    requires Sane(s) && s.firstAttachDone
    ensures Sane(Run(s, events)) && Run(s, events).firstAttachDone
  {
    if events != [] {
      RunStaysSane(s, events[..|events| - 1]);
    }
  }

  /** Event `k` of the run was an ok report that found a value on trial. */
  ghost predicate Confirms(s: State, events: seq<Event>, k: nat) {
    k < |events| && events[k].Report? && events[k].ok && Run(s, events[..k]).hasPending
  }

  /** The latest such report among the first `n` events, or none. */
  ghost function LastConfirming(s: State, events: seq<Event>, n: nat): (k: int)
    requires n <= |events|
    ensures -1 <= k < n && (k >= 0 ==> Confirms(s, events, k))
    ensures forall j :: k < j < n ==> !Confirms(s, events, j)
  {
    if n == 0 then -1
    else if Confirms(s, events, n - 1) then n - 1
    else LastConfirming(s, events, n - 1)
  }

  /**
   * After the first attach, known-good is the value that was on trial at the latest ok report that found
   * one, and the initial value if none did.
   */
  lemma {:induction false} KnownGoodWasConfirmed(s: State, events: seq<Event>, n: nat)
    requires s.firstAttachDone && n <= |events|
    ensures var k := LastConfirming(s, events, n);
            Run(s, events[..n]).knownGood == if k < 0 then s.knownGood else Run(s, events[..k]).pending
  {
    if n > 0 {
      KnownGoodWasConfirmed(s, events, n - 1);
      AttachedStays(s, events[..n - 1]);
      RunSnoc(s, events, n);
    }
  }

  lemma {:induction false} AttachedStays(s: State, events: seq<Event>)
    requires s.firstAttachDone
    ensures Run(s, events).firstAttachDone
  {
    if events != [] {
      AttachedStays(s, events[..|events| - 1]);
    }
  }

  lemma RunSnoc(s: State, events: seq<Event>, n: nat)
    requires 0 < n <= |events|
    ensures Run(s, events[..n]) == Step(Run(s, events[..n - 1]), events[n - 1])
  {
    assert events[..n][..n - 1] == events[..n - 1];
  }

  /** How many of the first `n` events are failed reports. */
  ghost function FailedReports(events: seq<Event>, n: nat): (f: nat)
    requires n <= |events|
  {
    if n == 0 then 0 else FailedReports(events, n - 1) + if events[n - 1].Report? && !events[n - 1].ok then 1 else 0
  }

  /** Among the first `n` events is an ok report that at most two failed ones precede. */
  ghost predicate OkInTime(events: seq<Event>, n: nat)
    requires n <= |events|
  {
    exists k :: 0 <= k < n && events[k] == Report(true, events[k].radioOk) && FailedReports(events, k) < 3
  }

  /** How a trial of `dbm` that began from state `s` stands. */
  ghost predicate Stands(s: State, dbm: int, events: seq<Event>, n: nat, t: State)
    requires n <= |events|
  {
    if OkInTime(events, n) then !t.hasPending && t.knownGood == dbm && !t.hasRejected
    else if FailedReports(events, n) < 3 then
      && t.hasPending && t.pending == dbm && t.unconfirmed == FailedReports(events, n)
      && t.knownGood == s.knownGood && !t.hasRejected
    else !t.hasPending && t.knownGood == s.knownGood && t.hasRejected && t.rejected == dbm
  }

  /**
   * The fate of every trial, told by the reports alone: while the broker redelivers nothing but its value,
   * the value is on trial until the third failed report rejects it or an ok report before that makes it
   * known-good for the rest of the run.
   */
  lemma {:induction false} TrialEnds(s: State, dbm: int, radioOk: bool, events: seq<Event>, n: nat)
    requires s.firstAttachDone && DBM_MIN <= dbm <= DBM_MAX && n <= |events|
    requires dbm != (if s.hasPending then s.pending else s.knownGood) && !(s.hasRejected && s.rejected == dbm)
    requires forall e :: e in events && e.Receive? ==> e.dbm == dbm
    ensures Stands(s, dbm, events, n, Run(Step(s, Receive(dbm, radioOk)), events[..n]))
  {
    if n > 0 {
      TrialEnds(s, dbm, radioOk, events, n - 1);
      var start := Step(s, Receive(dbm, radioOk));
      AttachedStays(start, events[..n - 1]);
      RunSnoc(start, events, n);
      TrialStep(s, dbm, events, n, Run(start, events[..n - 1]));
    }
  }

  lemma TrialStep(s: State, dbm: int, events: seq<Event>, n: nat, t: State)
    requires 0 < n <= |events| && t.firstAttachDone && DBM_MIN <= dbm <= DBM_MAX
    requires events[n - 1].Receive? ==> events[n - 1].dbm == dbm
    requires Stands(s, dbm, events, n - 1, t)
    ensures Stands(s, dbm, events, n, Step(t, events[n - 1]))
  {
    var e := events[n - 1];
    if OkInTime(events, n - 1) {
      assert OkInTime(events, n);
    } else if e.Report? && e.ok && FailedReports(events, n - 1) < 3 {
      assert e == Report(true, e.radioOk);
      assert OkInTime(events, n);
    } else {
      assert !OkInTime(events, n);
    }
  }

  /** The counter counts the failed reports of the running trial, and three of them always end it. */
  lemma {:induction false} NoTrialOutlivesThreeFailures(s: State, events: seq<Event>)
    requires Sane(s) && s.firstAttachDone
    ensures Run(s, events).hasPending ==>
              Run(s, events).unconfirmed == Failures(s, events) < REVERT_AFTER_CYCLES
  {
    if events != [] {
      NoTrialOutlivesThreeFailures(s, events[..|events| - 1]);
      RunStaysSane(s, events[..|events| - 1]);
    }
  }

  /** Exactly which received values go on trial: not the remembered reject, and not the one in effect. */
  lemma ReceiveStartsTrialIff(s: State, dbm: int, radioOk: bool)
    requires Sane(s) && s.firstAttachDone
    ensures StartsTrial(s, Receive(dbm, radioOk))
            <==> !(s.hasRejected && dbm == s.rejected) && Clamp(dbm, DBM_MIN, DBM_MAX) != Accepted(s)
  {
  }

  /** However often the broker redelivers a rejected value and whatever is reported, it never runs again. */
  lemma {:induction false} RejectedNeverRestarts(s: State, events: seq<Event>)
    requires Sane(s) && s.firstAttachDone && s.hasRejected && !s.hasPending
    requires forall e :: e in events && e.Receive? ==> e.dbm == s.rejected
    ensures var t := Run(s, events);
            !t.hasPending && t.knownGood == s.knownGood && t.hasRejected && t.rejected == s.rejected
  {
    if events != [] {
      RejectedNeverRestarts(s, events[..|events| - 1]);
    }
  }

  /**
   * The memory compares the received value, not the clamped one: an out-of-range value whose clamp
   * failed its trial goes on trial again each time it is redelivered.
   */
  lemma OutOfRangeRejectRestarts(s: State, dbm: int)
    requires Sane(s) && s.firstAttachDone && s.hasRejected && !s.hasPending
    requires s.rejected == Clamp(dbm, DBM_MIN, DBM_MAX) != s.knownGood
    ensures StartsTrial(s, Receive(dbm, true)) <==> !(DBM_MIN <= dbm <= DBM_MAX)
    ensures !(DBM_MIN <= dbm <= DBM_MAX) ==> Step(s, Receive(dbm, true)).pending == s.rejected
  {
    ReceiveStartsTrialIff(s, dbm, true);
  }

  /** While radio calls succeed the radio policy follows the accepted value; with no trial, known-good. */
  lemma {:induction false} ActiveIsAccepted(s: State, events: seq<Event>)
    requires Sane(s) && s.firstAttachDone && s.active == Accepted(s)
    requires forall e :: e in events ==> e.radioOk
    ensures Run(s, events).active == Accepted(Run(s, events))
    ensures !Run(s, events).hasPending ==> Run(s, events).active == Run(s, events).knownGood
  {
    if events != [] {
      ActiveIsAccepted(s, events[..|events| - 1]);
      RunStaysSane(s, events[..|events| - 1]);
    }
  }

  /** The first attach establishes that agreement and drops any trial an earlier boot left behind. */
  lemma FirstAttachDropsOldTrial(s: State)
    requires Fresh(s)
    ensures var t := Step(s, FirstAttach(true));
            && Sane(t) && t.firstAttachDone && !t.hasPending && t.active == t.radio == t.knownGood == s.knownGood
            && (s.hasPending ==> t.hasRejected && t.rejected == s.pending)
  {
  }

  /** The event moves the radio while an update holds it at the maximum. */
  predicate MovesRadio(s: State, e: Event) {
    StartsTrial(s, e) || (e.Report? && !e.ok && s.hasPending && s.unconfirmed + 1 == REVERT_AFTER_CYCLES)
  }

  /**
   * During an update window the radio leaves the table maximum exactly at an event that starts a
   * trial or completes the third failure of one, unless the value set then is the maximum itself.
   */
  lemma PinHoldsUnlessTrialMoves(s: State, e: Event)
    requires Sane(s) && s.firstAttachDone && s.radio == TABLE_MAX_DBM && e.radioOk && !e.UnpinAfterOta?
    ensures Step(s, e).radio == TABLE_MAX_DBM
            <==> !MovesRadio(s, e) || Step(s, e).active == TABLE_MAX_DBM
  {
  }

  /** A cycle that cannot attach during a download is reported as failed, and can undo the pin. */
  lemma RevertDuringUpdateLowersPower(s: State)
    requires Sane(s) && s.firstAttachDone && s.hasPending && s.unconfirmed + 1 == REVERT_AFTER_CYCLES
    requires s.knownGood != TABLE_MAX_DBM
    ensures var t := Run(s, [PinForOta(true), Report(false, true)]);
            t.radio == s.knownGood && t.radio != TABLE_MAX_DBM
  {
    var events := [PinForOta(true), Report(false, true)];
    assert events[..1] == [PinForOta(true)] && events[..1][..0] == [];
    assert Run(s, events[..1]) == Step(Run(s, events[..1][..0]), PinForOta(true));
  }

  /** Closing the window gives back whatever the policy last applied, also if that changed inside it. */
  lemma {:induction false} UnpinRestoresActive(s: State, events: seq<Event>)
    requires Sane(s) && s.firstAttachDone && s.active == Accepted(s)
    requires forall e :: e in events ==> e.radioOk
    ensures var t := Run(s, [PinForOta(true)] + events + [UnpinAfterOta(true)]);
            t.radio == Accepted(Run(s, events)) && t == Run(s, events).(radio := t.radio)
  {
    var all := [PinForOta(true)] + events + [UnpinAfterOta(true)];
    assert all[..|all| - 1] == [PinForOta(true)] + events;
    PinOnlyMovesRadio(s, events);
    ActiveIsAccepted(s, events);
  }

  lemma {:induction false} PinOnlyMovesRadio(s: State, events: seq<Event>)
    ensures var t := Run(s, [PinForOta(true)] + events); t == Run(s, events).(radio := t.radio)
  {
    var all := [PinForOta(true)] + events;
    if events == [] {
      assert all == [PinForOta(true)] && all[..0] == [];
      assert Run(s, all) == Step(Run(s, all[..0]), all[0]);
    } else {
      var before, e := events[..|events| - 1], events[|events| - 1];
      PinOnlyMovesRadio(s, before);
      assert all[..|all| - 1] == [PinForOta(true)] + before && all[|all| - 1] == e;
      StepIgnoresRadio(Run(s, before), Run(s, [PinForOta(true)] + before).radio, e);
    }
  }

  /** No decision depends on what the radio is really set to. */
  lemma StepIgnoresRadio(s: State, r: int, e: Event)
    ensures var t := Step(s.(radio := r), e); t == Step(s, e).(radio := t.radio)
  {
  }
}
