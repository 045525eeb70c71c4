/**
 * The two tasks of main/ota_updater.cpp and the reconnect loop of main/mqtt_sender.cpp. The session
 * task runs the code of ota_run_session(); wherever it can be preempted, EventTaskRuns() lets the
 * esp-mqtt task take any number of its own steps.
 */
module OtaUpdater {
  import opened Words
  import opened OtaDownload

  const OTA_MAX_NO_PROGRESS_ATTEMPTS: nat := 3
  const SUBSCRIBE_PIPELINE: nat := 2

  /** What the event task holds between two of its steps: a chunk past the unlocked check, or a bit to set. */
  datatype EventTask = Idle | Holding(delivery: Delivery) | Signalling(fail: bool)

  datatype Reason = NoSlot | BeginFailed | ConnectionLost | ChunkRejected | TimedOut(chunk: nat)
                  | SubscribeFailed | SessionCap | NotVerified

  /** Reasons of a session that had begun. */
  predicate InSession(r: Reason) {
    !r.NoSlot? && !r.BeginFailed?
  }

  datatype Outcome = Deferred | Failed(reason: Reason) | Rebooted

  /**
   * What the broker's messages can be on the chunk topics: anything; or only the retained slices, at any
   * time and any number of times, over a link and flash that may fail; or the slices, each as soon as it
   * is subscribed, with nothing failing.
   */
  datatype Broker = Adversarial | Honest(slices: seq<Bytes>) | Prompt(slices: seq<Bytes>)
  {
    predicate Sends(d: Delivery) {
      !Adversarial? ==> d.index < |slices| && d == Slice(slices, d.index)
    }

    ghost predicate Serves(dl: Download) {
      !Adversarial? ==> Served(dl, slices)
    }

    /** The slices are those of this image. */
    ghost predicate Holds(m: Manifest) {
      !Adversarial? && m.chunkSize > 0 && |slices| == TotalChunks(m) && SlicesFit(m, slices)
    }
  }

  /** How one session of a cycle ended, whether its connection was lost and whether it came to finalise. */
  datatype Ended = Ended(outcome: Outcome, lost: bool, finalised: bool)

  /** The first `n` sessions were each cut off by the loss of their connection. */
  ghost predicate Interrupted(trace: seq<Ended>, n: int)
    requires n <= |trace|
  {
    forall k: nat :: k < n ==> trace[k].outcome.Failed? && InSession(trace[k].outcome.reason) && trace[k].lost
  }

  ghost function Finalised(trace: seq<Ended>): (n: nat) {
    if trace == [] then 0
    else Finalised(trace[..|trace| - 1]) + if trace[|trace| - 1].finalised then 1 else 0
  }

  /**
   * Why the reconnect loop of a cycle ended: no update due, no connection, a reboot, a session that kept
   * its connection, or one more failed finalisation than the run is followed through.
   */
  datatype Stop = NotDue | NoConnection | Booting | ConnectionKept | PatienceSpent

  /** The reason the last session gives for the loop to end, if the patience had `left` left. */
  ghost function StopAfter(e: Ended, left: nat): (stop: Stop) {
    if e.outcome.Rebooted? then Booting
    else if e.finalised && left == 0 then PatienceSpent
    else if !e.lost then ConnectionKept
    else NotDue
  }

  /** The sessions so far, with the loop to go on or ended. */
  ghost predicate Went(trace: seq<Ended>, again: bool, stop: Stop, left: nat, patience: nat) {
    && Interrupted(trace, if again then |trace| else |trace| - 1)
    && (if again then Finalised(trace) + left == patience else Explains(stop, trace, patience))
  }

  lemma WentOn(trace: seq<Ended>, e: Ended, again: bool, stop: Stop, wasLeft: nat, left: nat, patience: nat)
    requires Went(trace, true, stop, wasLeft, patience)
    requires again ==> e.lost && e.outcome.Failed? && InSession(e.outcome.reason)
                       && left == wasLeft - if e.finalised then 1 else 0
    ensures Went(trace + [e], again, StopAfter(e, wasLeft), left, patience)
  {
    assert (trace + [e])[..|trace|] == trace;
  }

  /** The sessions show that the loop ended for the reason given, as far as sessions can show it. */
  ghost predicate Explains(stop: Stop, trace: seq<Ended>, patience: nat) {
    match stop
    case NotDue => true
    case NoConnection => true
    case Booting => |trace| > 0 && trace[|trace| - 1].outcome.Rebooted?
    case ConnectionKept => |trace| > 0 && !trace[|trace| - 1].lost
    case PatienceSpent => |trace| > 0 && trace[|trace| - 1].finalised && Finalised(trace) == patience + 1
  }

  /** The chunk numbers from `lo` up to, not including, `hi`, each once. */
  function Range(lo: nat, hi: nat): (s: seq<nat>)
    ensures |s| == Max(0, hi - lo) && forall i :: 0 <= i < |s| ==> s[i] == lo + i
  {
    seq(Max(0, hi - lo), i => lo + i)
  }

  const OTA_MIN_BATTERY_PERCENT: real := 30.0

  /** Where a session on `m` starts: at the kept download of the same image, if there is one. */
  ghost function StartChunk(dl: Download, m: Manifest): (k: nat) {
    if dl.valid && SameImage(m, dl.manifest) then dl.next else 0
  }

  /**
   * Whether a failing session that started at `start` resets the attempt count: when it got further,
   * or when it discarded a resumed download after the last chunk.
   */
  predicate Spared(start: nat, finalised: bool, next: nat) {
    if finalised then 0 < start else start < next
  }

  /** A session on one image as the budget sees it: where it started, whether it finalised, where it stopped. */
  datatype Session = Session(start: nat, finalised: bool, next: nat)

  /** The attempt count after a run of failing sessions that began with `a` attempts spent. */
  function AttemptsAfter(a: nat, run: seq<Session>): (n: nat) {
    if run == [] then a
    else
      var last := run[|run| - 1];
      if Spared(last.start, last.finalised, last.next) then 0 else AttemptsAfter(a, run[..|run| - 1]) + 1
  }

  /** The attempts spent are the sessions since the last spared one. */
  lemma {:induction false} AttemptsAre(a: nat, run: seq<Session>, k: nat)
    requires k <= |run|
    requires forall i :: |run| - k <= i < |run| ==> !Spared(run[i].start, run[i].finalised, run[i].next)
    ensures k == |run| ==> AttemptsAfter(a, run) == a + k
    ensures k < |run| && (var s := run[|run| - k - 1]; Spared(s.start, s.finalised, s.next))
            ==> AttemptsAfter(a, run) == k
  {
    if k > 0 {
      AttemptsAre(a, run[..|run| - 1], k - 1);
    }
  }

  /** Broken sessions on one image, each resuming where the one before stopped, none with a spent budget. */
  ghost predicate Resuming(a: nat, run: seq<Session>) {
    run != [] ==>
      var before, last := run[..|run| - 1], run[|run| - 1];
      && Resuming(a, before) && AttemptsAfter(a, before) < OTA_MAX_NO_PROGRESS_ATTEMPTS
      && !last.finalised && last.start <= last.next
      && (before != [] ==> before[|before| - 1].next == last.start)
  }

  /** While no session finalises, their number is bounded by three for every chunk fetched, plus the budget. */
  lemma {:induction false} SessionsBounded(a: nat, run: seq<Session>)
    requires Resuming(a, run) && run != []
    ensures run[0].start <= run[|run| - 1].next
    ensures a + |run| <= OTA_MAX_NO_PROGRESS_ATTEMPTS * (run[|run| - 1].next - run[0].start) + AttemptsAfter(a, run)
  {
    if |run| > 1 {
      SessionsBounded(a, run[..|run| - 1]);
    } else {
      assert run[..0] == [];
    }
  }

  /** A session broken after its first chunk, then a resumed one that completes an image which fails to verify. */
  function BadImageRun(n: nat): (run: seq<Session>) {
    if n == 0 then [] else BadImageRun(n - 1) + [Session(0, false, 1), Session(1, true, 0)]
  }

  /** Such sessions never use the budget up, so the same bad image is fetched for ever. */
  lemma BadImageNeverGivenUp(n: nat, k: nat)
    requires k <= |BadImageRun(n)|
    ensures AttemptsAfter(0, BadImageRun(n)[..k]) == 0
  {
    var run := BadImageRun(n);
    if k > 0 {
      BadImageSpares(n, k - 1);
      assert run[..k][|run[..k]| - 1] == run[k - 1];
    }
  }

  lemma {:induction false} BadImageSpares(n: nat, j: nat)
    requires j < |BadImageRun(n)|
    ensures var s := BadImageRun(n)[j]; Spared(s.start, s.finalised, s.next)
  {
    if j < |BadImageRun(n - 1)| {
      BadImageSpares(n - 1, j);
    }
  }

  lemma ProgressTransitive(a: Download, b: Download, c: Download)
    requires Progress(a, b) && Progress(b, c)
    ensures Progress(a, c)
  {
  }

  lemma TotalFits(m: Manifest)
    requires WellFormed(m)
    ensures TotalChunks(m) < 0x1_0000_0000
  {
  }

  /** What a session starts from is as far inside its image, and as honestly served, as what it resumes. */
  lemma BeginServes(dl: Download, m: Manifest, found: bool, io: Io, broker: Broker)
    requires Consistent(dl) && broker.Serves(dl) && WellFormed(m)
    requires dl.valid ==> dl.next <= TotalChunks(dl.manifest)
                          && (dl.hash.Broken? ==> dl.next < TotalChunks(dl.manifest))
    ensures var t := Begin(dl, m, found, io);
            && broker.Serves(t)
            && (t.valid ==> t.next <= TotalChunks(t.manifest)
                            && (t.hash.Broken? ==> t.next < TotalChunks(t.manifest)))
  {
  }

  /** Where a session that begins stands, and that it does begin when nothing fails. */
  lemma BeginsAt(dl: Download, m: Manifest, found: bool, io: Io, t: Download)
    requires Consistent(dl) && WellFormed(m) && t == Begin(dl, m, found, io)
    ensures t.valid ==> t.next == StartChunk(dl, m) && ((dl.valid && SameImage(m, dl.manifest)) || t.hash.Running?)
    ensures dl.valid && SameImage(m, dl.manifest) ==> t == dl
    ensures found && io == ALL_WELL && m.size <= SLOT_SIZE ==> t.valid
  {
    ResumesIff(dl, m, found, io);
  }

  lemma HoldsSame(broker: Broker, m: Manifest, o: Manifest)
    requires SameImage(m, o)
    ensures broker.Holds(m) <==> broker.Holds(o)
  {
  }

  /**
   * What a finalisation may conclude of a complete download: a passing one has the manifest's digest and
   * size; fed the slices of its image it holds them put together; and then nothing but a failing call or
   * a digest that is not theirs stops it.
   */
  lemma CompleteDownload(dl: Download, m: Manifest, sha256: Hash, io: Io, broker: Broker)
    requires Consistent(dl) && dl.valid && SameImage(m, dl.manifest) && dl.next == TotalChunks(dl.manifest)
    requires !dl.hash.Broken? && broker.Serves(dl)
    ensures FinishOk(dl, m, sha256, io) ==> sha256(dl.flash) == m.sha && |dl.flash| == m.size
    ensures dl.flash == Flat(dl.accepted)
    ensures broker.Holds(m) ==> dl.flash == Flat(broker.slices)
    ensures io == ALL_WELL && sha256(dl.flash) == m.sha ==> FinishOk(dl, m, sha256, io)
  {
    if FinishOk(dl, m, sha256, io) {
      FlipIsVerified(dl, m, sha256, io);
    }
    if broker.Holds(m) {
      assert dl.accepted == broker.slices;
    }
  }

  predicate InImage(m: Manifest, k: nat) {
    m.chunkSize > 0 && k < TotalChunks(m)
  }

  /** A chunk of the image leaves the download consistent and no longer than the image. */
  lemma HandleInside(dl: Download, d: Delivery, io: Io)
    requires Consistent(dl) && (dl.valid ==> dl.next <= TotalChunks(dl.manifest) && InImage(dl.manifest, d.index))
    ensures var t := HandleChunk(dl, d, io);
            Consistent(t) && Progress(dl, t) && (t.valid ==> t.next <= TotalChunks(t.manifest))
    ensures Judge(dl, d, io).Written? <==> HandleChunk(dl, d, io).next > dl.next
  {
    HandleChunkKeeps(dl, d, io);
  }

  /** Slices in order leave a prefix of the slices, and a hash that broke stays short of the last one. */
  lemma HandleServed(dl: Download, d: Delivery, io: Io, broker: Broker)
    requires Consistent(dl) && broker.Serves(dl) && broker.Sends(d)
    requires dl.valid ==> InImage(dl.manifest, d.index) && (dl.hash.Broken? ==> dl.next < TotalChunks(dl.manifest))
    ensures var t := HandleChunk(dl, d, io);
            broker.Serves(t) && (t.valid && t.hash.Broken? ==> t.next < TotalChunks(t.manifest))
  {
  }

  class Updater {
    const sha256: Hash
    const broker: Broker

    var manifest: Manifest
    var installRequested: bool
    var sessionActive: bool
    var connLost: bool
    var attempts: nat

    var partialValid: bool
    var partialManifest: Manifest
    var nextChunk: nat
    var received: nat
    var handleOpen: bool
    var flash: Bytes
    var hashOp: HashOp

    var chunkBit: bool
    var failBit: bool
    var eventTask: EventTask
    /** The filters subscribed on the current connection: all a broker may deliver to it. */
    var subscribed: seq<nat>

    var boot: Option<Bytes>
    ghost var bootManifest: Manifest
    ghost var accepted: seq<Bytes>

    ghost function Partial(): (dl: Download)
      reads this
    {
      Download(partialValid, partialManifest, nextChunk, received, handleOpen, flash, hashOp, accepted)
    }

    ghost predicate Valid()
      reads this
    {
      && Consistent(Partial())
      && (partialValid ==> nextChunk <= TotalChunks(partialManifest))
      && (manifest.valid ==> WellFormed(manifest))
      && (partialValid && hashOp.Broken? ==> nextChunk < TotalChunks(partialManifest))
      && broker.Serves(Partial())
      && (eventTask.Holding? ==> eventTask.delivery.index in subscribed && broker.Sends(eventTask.delivery))
      && (boot.Some? ==> sha256(boot.value) == bootManifest.sha && |boot.value| == bootManifest.size)
    }

    /** An accepted chunk's bit is set, or the event task is about to set it. */
    ghost predicate Announced()
      reads this
    {
      Signals() > 0
    }

    ghost function Signals(): (n: nat)
      reads this
    {
      (if chunkBit then 1 else 0) + if eventTask == Signalling(false) then 1 else 0
    }

    /** A download of the prompt broker's image under way, with nothing gone wrong. */
    ghost predicate Calm()
      reads this
    {
      && broker.Prompt? && partialValid && broker.Holds(partialManifest) && hashOp.Running?
      && !connLost && !failBit && eventTask != Signalling(true)
      && (eventTask.Holding? ==> eventTask.delivery.index == nextChunk)
    }

    /** A bit will come: one is set or about to be, or the chunk waited for is subscribed. */
    ghost predicate Expecting()
      reads this
    {
      Announced() || nextChunk in subscribed
    }

    /** How many steps of the event task it takes until a subscribed chunk has its bit. */
    ghost function StepsToBit(): (n: nat)
      reads this
    {
      if chunkBit then 0 else match eventTask case Idle => 3 case Holding(_) => 2 case Signalling(_) => 1
    }

    /** The connection's filters name chunks of the image being downloaded. */
    ghost predicate SubscribedInside()
      reads this
    {
      partialValid ==> forall k :: k in subscribed ==> InImage(partialManifest, k)
    }

    constructor (sha256: Hash, broker: Broker)
      ensures this.sha256 == sha256 && this.broker == broker
      ensures Valid() && !sessionActive && boot.None? && eventTask.Idle?
    {
      this.sha256, this.broker := sha256, broker;
      var none := Manifest("", 0, 0, [], false, false, false);
      manifest, partialManifest, bootManifest := none, none, none;
      installRequested, sessionActive, connLost, attempts := false, false, false, 0;
      partialValid, nextChunk, received, handleOpen, flash, hashOp := false, 0, 0, false, [], Inactive;
      chunkBit, failBit, eventTask, subscribed, boot := false, false, Idle, [], None;
      accepted := [];
    }

    /** A parsed retained manifest, or its deletion; a different image may be staged at any time between sessions. */
    method OnManifest(m: Manifest)
      requires Valid() && (m.valid ==> WellFormed(m))
      modifies this`manifest
      ensures Valid() && manifest == m
    {
      manifest := m;
    }

    /** The retained install flag: any payload asks for the update, an empty one withdraws it. */
    method OnInstall(payload: nat)
      requires Valid()
      modifies this`installRequested
      ensures Valid() && (installRequested <==> payload > 0)
    {
      installRequested := payload > 0;
    }

    /** A session that is due has budget left and a usable manifest, so the session's divisions are safe. */
    method UpdateDue() returns (due: bool)
      requires Valid()
      ensures due <==> installRequested && attempts < OTA_MAX_NO_PROGRESS_ATTEMPTS && manifest.valid && manifest.differs
      ensures due ==> WellFormed(manifest) && TotalChunks(manifest) < 0x1_0000_0000
    {
      due := installRequested && attempts < OTA_MAX_NO_PROGRESS_ATTEMPTS && manifest.valid && manifest.differs;
    }

    // ---- the event task ----------------------------------------------------------------------

    /** The locked half of the chunk handler. */
    method HandleImageChunk(d: Delivery, io: Io)
      requires Valid()
      modifies this`nextChunk, this`received, this`flash, this`hashOp, this`accepted, this`eventTask
      ensures Partial() == HandleChunk(old(Partial()), d, io)
      ensures eventTask == match Judge(old(Partial()), d, io)
                           case Ignored => Idle
                           case Rejected => Signalling(true)
                           case Written => Signalling(false)
    {
      var expected := Min(partialManifest.chunkSize,
                          Wrap32(partialManifest.size - Wrap32(nextChunk * partialManifest.chunkSize)));
      eventTask := Signalling(true);
      if d.offset != 0 || d.total != |d.data| {
        return;
      }
      if d.index != nextChunk {
        eventTask := Idle;
        return;
      }
      if |d.data| != expected || !handleOpen || !io.write {
        return;
      }
      flash := flash + d.data;
      if !hashOp.Running? || !io.update {
        hashOp := Broken;
        return;
      }
      hashOp := Running(hashOp.data + d.data);
      nextChunk, received, accepted := nextChunk + 1, received + |d.data|, accepted + [d.data];
      eventTask := Signalling(false);
    }

    /** The held chunk is judged, whatever the flash and hash calls return, and the outcome is to be announced. */
    method FinishChunk(d: Delivery) returns (ghost io: Io)
      requires Valid() && SubscribedInside() && eventTask == Holding(d)
      modifies this`nextChunk, this`received, this`flash, this`hashOp, this`accepted, this`eventTask
      ensures Valid() && Progress(old(Partial()), Partial()) && !eventTask.Holding?
      ensures old(Calm()) ==> eventTask == Signalling(false)
      ensures Partial() == HandleChunk(old(Partial()), d, io)
      ensures Quiet(old(nextChunk), old(connLost), old(failBit), old(Signals()), old(Calm()))
    {
      var outcome: Io := *;
      if broker.Prompt? {
        outcome := ALL_WELL;
      }
      io := outcome;
      HandleInside(Partial(), d, io);
      HandleServed(Partial(), d, io, broker);
      HandleImageChunk(d, outcome);
    }

    method SetBit(fail: bool)
      requires Valid() && eventTask == Signalling(fail)
      modifies this`eventTask, this`chunkBit, this`failBit
      ensures Valid() && eventTask.Idle?
      ensures failBit == (old(failBit) || fail) && chunkBit == (old(chunkBit) || !fail)
      ensures Quiet(old(nextChunk), old(connLost), old(failBit), old(Signals()), old(Calm()))
    {
      if fail {
        failBit := true;
      } else {
        chunkBit := true;
      }
      eventTask := Idle;
    }

    /** What the connection brings next, if anything: its end, or a message on one of the filters. */
    method NextEvent() returns (died: bool, message: Option<Delivery>)
      ensures message.Some? ==> message.value.index in subscribed && broker.Sends(message.value)
      ensures broker.Prompt? ==> !died && (message.Some? ==> message.value.index == nextChunk)
      ensures broker.Prompt? && nextChunk in subscribed && nextChunk < |broker.slices| ==> message.Some?
    {
      died := *;
      message := None;
      var d: Delivery := *;
      if broker.Prompt? {
        died := false;
        if nextChunk < |broker.slices| {
          // the oldest of its subscriptions that is not answered yet
          d := Slice(broker.slices, nextChunk);
        } else {
          return;
        }
      }
      if d.index in subscribed && broker.Sends(d) {
        message := Some(d);
      }
    }

    /** The unlocked half of the handlers: outside a session both a chunk and an error are dropped. */
    method PickUp() returns (died: bool, message: Option<Delivery>)
      requires Valid() && eventTask.Idle?
      modifies this`eventTask, this`connLost, this`failBit
      ensures Valid()
      ensures Quiet(old(nextChunk), old(connLost), old(failBit), old(Signals()), old(Calm()))
      ensures connLost == (old(connLost) || (sessionActive && died))
      ensures failBit == (old(failBit) || (sessionActive && died))
      ensures eventTask == if sessionActive && !died && message.Some? then Holding(message.value) else Idle
      ensures old(Calm()) && sessionActive && nextChunk in subscribed && nextChunk < |broker.slices|
              ==> eventTask.Holding?
    {
      died, message := NextEvent();
      if !sessionActive {
        return;
      }
      if died {
        connLost, failBit := true, true;
      } else if message.Some? {
        eventTask := Holding(message.value);
      }
    }

    /** One step of the event task: pick up an event, finish a chunk under the mutex, or set its bit. */
    method EventStep()
      requires Valid() && SubscribedInside()
      modifies this`nextChunk, this`received, this`flash, this`hashOp, this`accepted,
               this`eventTask, this`connLost, this`chunkBit, this`failBit
      ensures Valid() && Progress(old(Partial()), Partial())
      ensures Quiet(old(nextChunk), old(connLost), old(failBit), old(Signals()), old(Calm()))
      ensures old(Calm() && sessionActive && Expecting() && !chunkBit)
              ==> Expecting() && StepsToBit() < old(StepsToBit())
    {
      match eventTask
      case Holding(d) => ghost var io := FinishChunk(d);
      case Signalling(fail) => SetBit(fail);
      case Idle => var died, message := PickUp();
    }

    /** What the session task may rely on after the event task ran. */
    ghost predicate Quiet(next: nat, lost: bool, fail: bool, signals: nat, calm: bool)
      reads this
    {
      && next <= nextChunk
      && (lost ==> connLost) && (fail ==> failBit)
      && (connLost && !lost ==> failBit && sessionActive)
      && (signals > 0 ==> Announced())
      && (next < nextChunk ==> Announced())
      && (next == nextChunk ==> Signals() <= signals)
      && (calm ==> Calm())
    }

    method EventTaskRuns()
      requires Valid() && SubscribedInside()
      modifies this`nextChunk, this`received, this`flash, this`hashOp, this`accepted,
               this`eventTask, this`connLost, this`chunkBit, this`failBit
      ensures Valid() && SubscribedInside() && Progress(old(Partial()), Partial())
      ensures Quiet(old(nextChunk), old(connLost), old(failBit), old(Signals()), old(Calm()))
    {
      var steps: nat := *;
      while steps > 0
        invariant Valid() && SubscribedInside() && Progress(old(Partial()), Partial())
        invariant Quiet(old(nextChunk), old(connLost), old(failBit), old(Signals()), old(Calm()))
      {
        EventStep();
        steps := steps - 1;
      }
    }

    /** The event task while the session task waits: the wait outlasts one delivery by a prompt broker. */
    method EventTaskWhileWaiting()
      requires Valid() && SubscribedInside()
      modifies this`nextChunk, this`received, this`flash, this`hashOp, this`accepted,
               this`eventTask, this`connLost, this`chunkBit, this`failBit
      ensures Valid() && SubscribedInside() && Progress(old(Partial()), Partial())
      ensures Quiet(old(nextChunk), old(connLost), old(failBit), old(Signals()), old(Calm()))
      ensures old(Calm() && sessionActive && Expecting()) ==> chunkBit
    {
      EventTaskRuns();
      var steps := if broker.Prompt? then 3 else 0;
      while steps > 0 && !chunkBit
        invariant Valid() && SubscribedInside() && Progress(old(Partial()), Partial())
        invariant Quiet(old(nextChunk), old(connLost), old(failBit), old(Signals()), old(Calm()))
        invariant old(Calm() && sessionActive && Expecting()) ==> Expecting() && StepsToBit() <= steps
      {
        EventStep();
        steps := steps - 1;
      }
    }

    // ---- the session task --------------------------------------------------------------------

    method DiscardPartial()
      modifies this`partialValid, this`nextChunk, this`received, this`handleOpen, this`hashOp, this`accepted
      ensures Partial() == Discard(old(Partial()))
    {
      handleOpen, hashOp, partialValid := false, Inactive, false;
      nextChunk, received, accepted := 0, 0, [];
    }

    /** Opens the flash handle and the hash for a new image. */
    method StartFresh(m: Manifest, found: bool, io: Io)
      requires !partialValid && !handleOpen && hashOp.Inactive? && nextChunk == 0 && received == 0 && accepted == []
      modifies this`partialValid, this`partialManifest, this`handleOpen, this`flash, this`hashOp,
               this`nextChunk, this`received, this`accepted
      ensures Partial() == Begin(old(Partial()), m, found, io)
    {
      if !found || SLOT_SIZE < m.size {
        return;
      }
      if !io.begin {
        handleOpen := false;
        return;
      }
      handleOpen := true;
      flash := [];
      if !io.setup {
        DiscardPartial();
        return;
      }
      hashOp, partialManifest, partialValid := Running([]), m, true;
      nextChunk, received, accepted := 0, 0, [];
    }

    /** The image fits a slot, and a kept part of it has a hash that still runs. */
    ghost predicate Ready(m: Manifest)
      reads this
    {
      m.size <= SLOT_SIZE && (partialValid && SameImage(m, partialManifest) ==> hashOp.Running?)
    }

    /** A kept download of another image is discarded before anything is started. */
    method StartOrKeep(m: Manifest, found: bool, io: Io)
      requires Consistent(Partial())
      modifies this`partialValid, this`partialManifest, this`nextChunk, this`received, this`handleOpen,
               this`flash, this`hashOp, this`accepted
      ensures Partial() == Begin(old(Partial()), m, found, io)
    {
      if partialValid && !SameImage(m, partialManifest) {
        DiscardPartial();
      }
      if !partialValid {
        StartFresh(m, found, io);
      }
    }

    /** Fresh start or resume, under the mutex. */
    method BeginOrResume(m: Manifest, found: bool, io: Io) returns (started: bool)
      requires Valid() && WellFormed(m) && !eventTask.Holding?
      modifies this`partialValid, this`partialManifest, this`nextChunk, this`received, this`handleOpen,
               this`flash, this`hashOp, this`accepted
      ensures Valid() && Partial() == Begin(old(Partial()), m, found, io)
      ensures started == partialValid
      ensures started ==> SameImage(m, partialManifest) && nextChunk == StartChunk(old(Partial()), m)
      ensures old(Ready(m)) && found && io == ALL_WELL ==> started && hashOp.Running?
    {
      ghost var before := Partial();
      BeginKeeps(Partial(), m, found, io);
      BeginServes(Partial(), m, found, io, broker);
      StartOrKeep(m, found, io);
      BeginsAt(before, m, found, io, Partial());
      started := partialValid;
    }

    /** The state of a pulling session between two of its steps. */
    ghost predicate Pulling(m: Manifest, start: nat)
      reads this
    {
      && Valid() && SubscribedInside() && sessionActive && partialValid && SameImage(m, partialManifest)
      && subscribed == Range(start, start + |subscribed|)
    }

    method Subscribe(m: Manifest, start: nat, chunk: nat) returns (ok: bool)
      requires Pulling(m, start) && InImage(m, chunk) && chunk == start + |subscribed|
      modifies this`subscribed
      ensures Pulling(m, start)
      ensures subscribed == Range(start, if ok then chunk + 1 else chunk)
      ensures broker.Prompt? ==> ok
    {
      ok := *;
      if ok || broker.Prompt? {
        ok := true;
        subscribed := subscribed + [chunk];
      }
    }

    /** Subscribes the chunks numbered `lo` up to `hi`, while the event task goes on delivering. */
    method SubscribeUpTo(m: Manifest, start: nat, hi: nat) returns (ok: bool)
      requires Pulling(m, start) && start + |subscribed| <= hi && WellFormed(m) && hi <= TotalChunks(m)
      modifies this`nextChunk, this`received, this`flash, this`hashOp, this`accepted,
               this`eventTask, this`connLost, this`chunkBit, this`failBit, this`subscribed
      ensures Pulling(m, start) && Progress(old(Partial()), Partial())
      ensures Quiet(old(nextChunk), old(connLost), old(failBit), old(Signals()), old(Calm()))
      ensures start + |subscribed| <= hi && (ok ==> start + |subscribed| == hi)
      ensures old(subscribed) <= subscribed && (broker.Prompt? ==> ok)
    {
      ok := true;
      var k := start + |subscribed|;
      while ok && k < hi
        invariant Pulling(m, start) && Progress(old(Partial()), Partial()) && old(subscribed) <= subscribed
        invariant Quiet(old(nextChunk), old(connLost), old(failBit), old(Signals()), old(Calm()))
        invariant k <= hi && (if ok then k == start + |subscribed| else start + |subscribed| < hi)
        invariant broker.Prompt? ==> ok
        decreases hi - k
      {
        EventTaskRuns();
        ok := Subscribe(m, start, k);
        k := k + 1;
      }
    }

    /**
     * The head of the pull loop: exactly the chunks from `start` to two past the counted ones are
     * subscribed, each once; an accepted chunk not yet counted has a bit set or about to be.
     */
    ghost predicate AtHead(m: Manifest, start: nat, done: nat)
      requires WellFormed(m)
      reads this
    {
      && Pulling(m, start)
      && start <= done <= nextChunk <= TotalChunks(m)
      && subscribed == Range(start, Min(done + SUBSCRIBE_PIPELINE, TotalChunks(m)))
      && (done < nextChunk ==> Announced())
    }

    /** Where a session stopped pulling: the same window, possibly not filled any more. */
    ghost predicate Stopped(m: Manifest, start: nat, done: nat)
      requires WellFormed(m)
      reads this
    {
      && Pulling(m, start)
      && start <= done <= nextChunk <= TotalChunks(m)
      && start + |subscribed| <= Min(done + SUBSCRIBE_PIPELINE, TotalChunks(m))
    }

    /** A lost connection is, or is about to be, told to the session by the failure bit. */
    ghost predicate Warned()
      reads this
    {
      connLost ==> failBit
    }

    /** The wait: whatever bits it finds are returned and cleared; none at all means it timed out. */
    method WaitBits(m: Manifest, start: nat) returns (chunk: bool, fail: bool)
      requires Pulling(m, start)
      modifies this`nextChunk, this`received, this`flash, this`hashOp, this`accepted,
               this`eventTask, this`connLost, this`chunkBit, this`failBit
      ensures Pulling(m, start) && Progress(old(Partial()), Partial())
      ensures old(nextChunk) <= nextChunk
      ensures nextChunk == old(nextChunk) ==> Signals() + (if chunk then 1 else 0) <= old(Signals())
      ensures old(nextChunk) == nextChunk && old(Announced()) && !chunk ==> Announced()
      ensures old(nextChunk) < nextChunk ==> chunk || Announced()
      ensures (old(failBit) ==> fail) && (old(Warned()) && !fail ==> Warned())
      ensures old(Calm()) ==> Calm() && !fail && (old(Expecting()) ==> chunk)
    {
      EventTaskWhileWaiting();
      chunk, fail := chunkBit, failBit;
      chunkBit, failBit := false, false;
    }

    /** The wait at the head of the loop, and what arrives until its bits are looked at. */
    method WaitAtHead(m: Manifest, start: nat, was: nat) returns (chunk: bool, fail: bool)
      requires WellFormed(m) && AtHead(m, start, was) && was < TotalChunks(m)
      modifies this`nextChunk, this`received, this`flash, this`hashOp, this`accepted,
               this`eventTask, this`connLost, this`chunkBit, this`failBit
      ensures Progress(old(Partial()), Partial()) && Stopped(m, start, was)
      ensures nextChunk == was ==> Signals() + (if chunk then 1 else 0) <= old(Signals())
      ensures (old(failBit) ==> fail) && (old(Warned()) && !fail ==> Warned())
      ensures old(Calm()) ==> Calm() && !fail && chunk
    {
      assert subscribed[was - start] == was;
      chunk, fail := WaitBits(m, start);
      EventTaskRuns();
    }

    /** One turn of the pull loop. A failure bit found at its start ends the session here, for the reason latched. */
    method PullTurn(m: Manifest, start: nat, was: nat) returns (done: nat, stop: Option<Reason>)
      requires WellFormed(m) && AtHead(m, start, was) && was < TotalChunks(m)
      modifies this`nextChunk, this`received, this`flash, this`hashOp, this`accepted,
               this`eventTask, this`connLost, this`chunkBit, this`failBit, this`subscribed
      ensures Progress(old(Partial()), Partial())
      ensures Stopped(m, start, done) && (stop.None? ==> AtHead(m, start, done))
      ensures was <= done && (stop.None? && was == done ==> Signals() < old(Signals()))
      ensures stop.Some? && stop.value.TimedOut? ==> stop.value == TimedOut(done) && done in subscribed
      ensures stop.Some? ==> InSession(stop.value) && !stop.value.NotVerified?
      ensures stop.Some? && done == TotalChunks(m) ==> stop.value.SubscribeFailed?
      ensures Blames(stop) && (old(Warned()) && stop.None? ==> Warned())
      ensures old(failBit) ==> done == was && stop == Some(if connLost then ConnectionLost else ChunkRejected)
      ensures old(Calm()) ==> Calm() && stop.None?
    {
      var chunk, fail := WaitAtHead(m, start, was);
      done, stop := was, None;
      if fail {
        return was, Some(if connLost then ConnectionLost else ChunkRejected);
      }
      if nextChunk == was {
        if !chunk {
          assert subscribed[was - start] == was;
          return was, Some(TimedOut(was));
        }
        return was, None;
      }
      var capped;
      done, stop, capped := Refill(m, start, was);
    }

    /** A session blames the connection if it was lost, and not a chunk. */
    ghost predicate Blames(stop: Option<Reason>)
      reads this
    {
      (stop == Some(ConnectionLost) ==> connLost) && (stop == Some(ChunkRejected) ==> !connLost)
    }

    /**
     * Counts every completion since `was` and keeps the window two deep beyond the last one; a session past
     * its time cap ends here, unless it just became complete.
     */
    method Refill(m: Manifest, start: nat, was: nat) returns (done: nat, stop: Option<Reason>, capped: bool)
      requires WellFormed(m) && Stopped(m, start, was) && was < nextChunk
      modifies this`nextChunk, this`received, this`flash, this`hashOp, this`accepted,
               this`eventTask, this`connLost, this`chunkBit, this`failBit, this`subscribed
      ensures Progress(old(Partial()), Partial())
      ensures Stopped(m, start, done) && (stop.None? ==> AtHead(m, start, done))
      ensures done == old(nextChunk)
      ensures stop.Some? ==> stop.value.SubscribeFailed? || (stop.value.SessionCap? && capped && done < TotalChunks(m))
      ensures capped && done < TotalChunks(m) ==> stop.Some?
      ensures old(Warned()) ==> Warned()
      ensures old(Calm()) ==> Calm() && stop.None?
    {
      done, stop, capped := nextChunk, None, *;
      if broker.Prompt? {
        capped := false;
      }
      var ok := SubscribeUpTo(m, start, Min(done + SUBSCRIBE_PIPELINE, TotalChunks(m)));
      if !ok {
        return done, Some(SubscribeFailed), capped;
      }
      if done < TotalChunks(m) && capped {
        stop := Some(SessionCap);
      }
    }

    /** The window of two subscriptions is primed. */
    method Prime(m: Manifest, start: nat) returns (ok: bool)
      requires WellFormed(m) && Pulling(m, start) && subscribed == [] && nextChunk == start && Signals() == 0
      modifies this`nextChunk, this`received, this`flash, this`hashOp, this`accepted,
               this`eventTask, this`connLost, this`chunkBit, this`failBit, this`subscribed
      ensures Stopped(m, start, start) && Progress(old(Partial()), Partial())
      ensures ok ==> AtHead(m, start, start)
      ensures old(Warned()) ==> Warned()
      ensures old(Calm()) ==> Calm() && ok
    {
      ok := SubscribeUpTo(m, start, Min(start + SUBSCRIBE_PIPELINE, TotalChunks(m)));
    }

    /** The pull loop: primes the window of two subscriptions and refills it for every completion. */
    method Pull(m: Manifest, start: nat) returns (done: nat, stop: Option<Reason>)
      requires WellFormed(m) && Pulling(m, start) && subscribed == [] && nextChunk == start && Signals() == 0
      requires Warned()
      modifies this`nextChunk, this`received, this`flash, this`hashOp, this`accepted,
               this`eventTask, this`connLost, this`chunkBit, this`failBit, this`subscribed
      ensures Stopped(m, start, done) && Progress(old(Partial()), Partial())
      ensures stop.None? ==> done == TotalChunks(m) && AtHead(m, start, done)
      ensures stop.Some? && stop.value.TimedOut? ==> stop.value == TimedOut(done) && done in subscribed
      ensures stop.Some? && done == TotalChunks(m) ==> stop.value.SubscribeFailed?
      ensures stop.Some? ==> InSession(stop.value) && !stop.value.NotVerified?
      ensures Blames(stop) && (stop.None? ==> Warned())
      ensures old(Calm()) ==> Calm() && stop.None?
    {
      done, stop := start, None;
      var ok := Prime(m, start);
      if !ok {
        return start, Some(SubscribeFailed);
      }
      while stop.None? && done < TotalChunks(m)
        invariant Stopped(m, start, done) && Progress(old(Partial()), Partial())
        invariant stop.None? ==> AtHead(m, start, done)
        invariant stop.Some? && stop.value.TimedOut? ==> stop.value == TimedOut(done) && done in subscribed
        invariant stop.Some? && done == TotalChunks(m) ==> stop.value.SubscribeFailed?
        invariant stop.Some? ==> InSession(stop.value) && !stop.value.NotVerified?
        invariant Blames(stop) && (stop.None? ==> Warned())
        invariant old(Calm()) ==> Calm() && stop.None?
        decreases stop.None?, TotalChunks(m) - done, Signals()
      {
        ghost var before := Partial();
        done, stop := PullTurn(m, start, done);
        ProgressTransitive(old(Partial()), before, Partial());
      }
    }

    /** Verifies a complete image and flips the boot partition to it; either way the download is over. */
    method Finalise(m: Manifest, io: Io) returns (ok: bool)
      requires Valid() && partialValid && SameImage(m, partialManifest) && nextChunk == TotalChunks(partialManifest)
      modifies this`partialValid, this`nextChunk, this`received, this`handleOpen, this`hashOp, this`accepted,
               this`boot, this`bootManifest
      ensures Valid() && Partial() == Discard(old(Partial()))
      ensures ok == FinishOk(old(Partial()), m, sha256, io)
      ensures io == ALL_WELL && sha256(flash) == m.sha ==> ok
      ensures flash == old(flash) == Flat(old(accepted)) && (broker.Holds(m) ==> flash == Flat(broker.slices))
      ensures if ok then boot == Some(flash) && bootManifest == m && sha256(flash) == m.sha && |flash| == m.size
              else boot == old(boot)
    {
      CompleteDownload(Partial(), m, sha256, io, broker);
      ok := hashOp.Running? && io.finish && sha256(hashOp.data) == m.sha && handleOpen && io.end && io.setBoot;
      if ok {
        boot, bootManifest := Some(flash), m;
      }
      DiscardPartial();
    }

    /** The no-progress budget after a session that did not end in a reboot. */
    method SettleAttempts(start: uint32)
      requires nextChunk < 0x1_0000_0000
      modifies this`attempts
      ensures attempts == if nextChunk != start then 0 else old(attempts) + 1
    {
      var progressed := Wrap32(nextChunk - start);
      if progressed > 0 {
        attempts := 0;
      } else {
        attempts := attempts + 1;
      }
    }

    /** The session stops taking new events; what the event task already holds may still be finished. */
    method StopSession(m: Manifest, start: nat)
      requires Pulling(m, start) && WellFormed(m) && nextChunk <= TotalChunks(m)
      modifies this`nextChunk, this`received, this`flash, this`hashOp, this`accepted,
               this`eventTask, this`connLost, this`chunkBit, this`failBit, this`sessionActive
      ensures Valid() && SubscribedInside() && !sessionActive && Progress(old(Partial()), Partial())
      ensures old(nextChunk) <= nextChunk <= TotalChunks(m) && (old(connLost) ==> connLost)
      ensures old(Calm()) ==> Calm()
    {
      EventTaskRuns();
      ghost var mid := Partial();
      sessionActive := false;
      EventTaskRuns();
      ProgressTransitive(old(Partial()), mid, Partial());
    }

    /** A download of the prompt broker's image that no failed call has touched. */
    ghost predicate Unhurt()
      reads this
    {
      broker.Prompt? && partialValid && broker.Holds(partialManifest) && hashOp.Running? && !connLost
    }

    /** The window opens: from here on the event task takes chunks. */
    method OpenAndPull(m: Manifest) returns (complete: bool, reason: Reason)
      requires Valid() && !sessionActive && eventTask.Idle? && subscribed == []
      requires partialValid && SameImage(m, partialManifest) && WellFormed(m) && !connLost
      modifies this`nextChunk, this`received, this`flash, this`hashOp, this`accepted,
               this`eventTask, this`connLost, this`chunkBit, this`failBit, this`subscribed, this`sessionActive
      ensures Pulling(m, old(nextChunk)) && Progress(old(Partial()), Partial()) && nextChunk <= TotalChunks(m)
      ensures InSession(reason) && (complete ==> nextChunk == TotalChunks(m))
      ensures (reason.ConnectionLost? ==> connLost) && (!complete ==> !reason.NotVerified?)
      ensures |subscribed| <= nextChunk - old(nextChunk) + SUBSCRIBE_PIPELINE
      ensures old(Unhurt()) ==> complete && Calm()
    {
      var start := nextChunk;
      chunkBit, failBit, sessionActive := false, false, true;
      var done, stop := Pull(m, start);
      complete := done == TotalChunks(m);
      reason := if stop.Some? then stop.value else NotVerified;
    }

    /** The part of a session with the connection in use; `total` chunks make it ready to finalise. */
    method PullSession(m: Manifest) returns (complete: bool, reason: Reason)
      requires Valid() && !sessionActive && eventTask.Idle? && subscribed == []
      requires partialValid && SameImage(m, partialManifest) && WellFormed(m) && !connLost
      modifies this`nextChunk, this`received, this`flash, this`hashOp, this`accepted,
               this`eventTask, this`connLost, this`chunkBit, this`failBit, this`subscribed, this`sessionActive
      ensures Valid() && SubscribedInside() && !sessionActive && Progress(old(Partial()), Partial())
      ensures old(nextChunk) <= nextChunk <= TotalChunks(m)
      ensures InSession(reason) && (complete ==> nextChunk == TotalChunks(m))
      ensures (reason.ConnectionLost? ==> connLost) && (!complete ==> !reason.NotVerified?)
      ensures |subscribed| <= nextChunk - old(nextChunk) + SUBSCRIBE_PIPELINE
      ensures subscribed == Range(old(nextChunk), old(nextChunk) + |subscribed|)
      ensures old(Unhurt()) ==> complete && Calm()
    {
      var start := nextChunk;
      complete, reason := OpenAndPull(m);
      ghost var pulled := Partial();
      StopSession(m, start);
      ProgressTransitive(old(Partial()), pulled, Partial());
    }

    /** After the connection: a complete image is finalised, and anything but a reboot settles the budget. */
    method Conclude(m: Manifest, io: Io, start: nat, complete: bool, why: Reason) returns (outcome: Outcome)
      requires Valid() && SubscribedInside() && partialValid && SameImage(m, partialManifest) && WellFormed(m)
      requires start <= nextChunk <= TotalChunks(m) && (complete ==> nextChunk == TotalChunks(m))
      modifies this`partialValid, this`nextChunk, this`received, this`handleOpen, this`hashOp, this`accepted,
               this`boot, this`bootManifest, this`attempts
      ensures Valid() && SubscribedInside() && !outcome.Deferred?
      ensures complete || (Partial() == old(Partial()) && outcome.Failed?)
      ensures outcome.Rebooted? ==> boot == Some(flash) && bootManifest == m && attempts == old(attempts)
      ensures complete && broker.Holds(m) ==> flash == Flat(broker.slices)
      ensures complete && io == ALL_WELL && sha256(flash) == m.sha ==> outcome.Rebooted?
      ensures !outcome.Rebooted? ==> boot == old(boot)
      ensures outcome.Failed? ==> attempts == if Spared(start, complete, nextChunk) then 0 else old(attempts) + 1
      ensures outcome.Failed? ==> outcome == Failed(if complete then NotVerified else why)
    {
      TotalFits(m);
      var reason := why;
      if complete {
        var ok := Finalise(m, io);
        if ok {
          return Rebooted;
        }
        reason := NotVerified;
      }
      SettleAttempts(start);
      outcome := Failed(reason);
    }

    /** The rest of a session that could begin: pulling, finalising a complete image, the budget. */
    method FetchAndFinalise(m: Manifest, io: Io) returns (outcome: Outcome, finalised: bool)
      requires Valid() && !sessionActive && eventTask.Idle? && subscribed == []
      requires partialValid && SameImage(m, partialManifest) && WellFormed(m) && !connLost
      modifies this
      ensures Valid() && SubscribedInside() && !sessionActive
      ensures outcome.Failed? ==> (outcome.reason.NotVerified? <==> finalised)
      ensures outcome.Failed? && outcome.reason.ConnectionLost? ==> connLost
      ensures manifest == old(manifest) && installRequested == old(installRequested)
      ensures !outcome.Deferred? && (!finalised ==> partialValid && SameImage(m, partialManifest))
      ensures outcome.Rebooted? ==> finalised && boot.Some? && bootManifest == m && attempts == old(attempts)
      ensures outcome.Rebooted? && broker.Holds(m) ==> boot == Some(Flat(broker.slices))
      ensures old(Unhurt()) && sha256(Flat(broker.slices)) == m.sha && io == ALL_WELL ==> outcome.Rebooted?
      ensures !outcome.Rebooted? ==> boot == old(boot)
      ensures outcome.Failed? ==> InSession(outcome.reason) && (!finalised ==> nextChunk >= old(nextChunk))
      ensures outcome.Failed?
              ==> attempts == if Spared(old(nextChunk), finalised, nextChunk) then 0 else old(attempts) + 1
    {
      HoldsSame(broker, m, partialManifest);
      var start := nextChunk;
      var reason;
      finalised, reason := PullSession(m);
      outcome := Conclude(m, io, start, finalised, reason);
    }

    /** The prompt broker holds the staged image, and the device is ready for it. */
    ghost predicate Orderly()
      reads this
    {
      broker.Prompt? && broker.Holds(manifest) && sha256(Flat(broker.slices)) == manifest.sha && Ready(manifest)
    }

    /** A session past the battery gate: what it does depends on how far it can begin. */
    method Attempt(found: bool, io: Io) returns (outcome: Outcome, finalised: bool, ghost started: bool)
      requires Valid() && WellFormed(manifest) && !sessionActive && eventTask.Idle? && subscribed == [] && !connLost
      modifies this
      ensures outcome.Failed? ==> (outcome.reason.NotVerified? <==> finalised)
      ensures outcome.Failed? && outcome.reason.ConnectionLost? ==> connLost
      ensures Valid() && SubscribedInside() && !sessionActive && !outcome.Deferred?
      ensures manifest == old(manifest) && installRequested == old(installRequested)
      ensures outcome.Rebooted? ==> finalised && boot.Some? && bootManifest == manifest && attempts == old(attempts)
      ensures outcome.Rebooted? && broker.Holds(manifest) ==> boot == Some(Flat(broker.slices))
      ensures old(Orderly() && !connLost) && found && io == ALL_WELL ==> outcome.Rebooted?
      ensures !outcome.Rebooted? ==> boot == old(boot)
      ensures started == Begin(old(Partial()), manifest, found, io).valid
      ensures if started then !finalised ==> partialValid && SameImage(manifest, partialManifest)
              else !finalised && connLost == old(connLost)
                   && outcome == Failed(if found && manifest.size <= SLOT_SIZE then BeginFailed else NoSlot)
      ensures outcome.Failed? ==> InSession(outcome.reason) == started
      ensures outcome.Failed? ==> finalised || StartChunk(old(Partial()), manifest) <= nextChunk
      ensures outcome.Failed?
              ==> attempts == if Spared(StartChunk(old(Partial()), manifest), finalised, nextChunk) then 0
                              else old(attempts) + 1
    {
      var begun := BeginOrResume(manifest, found, io);
      started := begun;
      if !begun {
        attempts, finalised := attempts + 1, false;
        outcome := Failed(if !found || SLOT_SIZE < manifest.size then NoSlot else BeginFailed);
        return;
      }
      HoldsSame(broker, manifest, partialManifest);
      outcome, finalised := FetchAndFinalise(manifest, io);
    }

    /**
     * One OTA session. A failing one spends an attempt unless the download got further; a failing
     * finalisation has discarded the download first, so its wrapped difference spends an attempt
     * only when the session had started at chunk 0. If the broker sent nothing but the slices of the
     * image, what a reboot boots is the slices put together; and with a prompt broker it does reboot.
     */
    method RunSession(battery: Option<real>, found: bool, io: Io) returns (outcome: Outcome, finalised: bool)
      requires Valid() && WellFormed(manifest) && !sessionActive && eventTask.Idle? && subscribed == []
      modifies this
      ensures Valid() && SubscribedInside() && !sessionActive
      ensures manifest == old(manifest) && installRequested == old(installRequested)
      ensures outcome.Deferred? <==> battery.Some? && battery.value < OTA_MIN_BATTERY_PERCENT && !manifest.force
      ensures outcome.Deferred? ==> Partial() == old(Partial()) && attempts == old(attempts) && !connLost && !finalised
      ensures outcome.Rebooted? ==> finalised && boot.Some? && bootManifest == manifest && attempts == old(attempts)
      ensures outcome.Rebooted? && broker.Holds(manifest) ==> boot == Some(Flat(broker.slices))
      ensures old(Orderly()) && found && io == ALL_WELL && !outcome.Deferred? ==> outcome.Rebooted?
      ensures !outcome.Rebooted? ==> boot == old(boot)
      ensures connLost && !finalised ==> partialValid && SameImage(manifest, partialManifest)
      ensures connLost && outcome.Failed? ==> InSession(outcome.reason)
      ensures outcome.Failed? ==> (outcome.reason.NotVerified? <==> finalised)
      ensures outcome.Failed? && outcome.reason.ConnectionLost? ==> connLost
      ensures outcome.Failed? ==> finalised || StartChunk(old(Partial()), manifest) <= nextChunk
      ensures outcome.Failed? ==>
                var start := if old(partialValid) && SameImage(manifest, old(partialManifest)) then old(nextChunk)
                             else 0;
                attempts == if (finalised && start > 0) || (!finalised && nextChunk > start) then 0
                            else old(attempts) + 1
    {
      connLost, finalised := false, false;
      if battery.Some? && battery.value < OTA_MIN_BATTERY_PERCENT && !manifest.force {
        return Deferred, false;
      }
      ghost var started;
      outcome, finalised, started := Attempt(found, io);
    }

    /** The connection is torn down: the event task finishes what it is doing and delivers no more. */
    method Disconnect()
      requires Valid() && SubscribedInside() && !sessionActive
      modifies this`nextChunk, this`received, this`flash, this`hashOp, this`accepted,
               this`eventTask, this`chunkBit, this`failBit, this`subscribed
      ensures Valid() && Progress(old(Partial()), Partial()) && eventTask.Idle? && subscribed == []
    {
      if eventTask.Holding? {
        ghost var io := FinishChunk(eventTask.delivery);
      }
      if eventTask.Signalling? {
        SetBit(eventTask.fail);
      }
      subscribed := [];
    }

    /** The chunks a session on the current manifest still has to fetch, one more if it cannot resume. */
    ghost function ChunksLeft(): (n: nat)
      requires Valid() && manifest.valid
      reads this
    {
      if partialValid && SameImage(manifest, partialManifest) then TotalChunks(manifest) - nextChunk
      else TotalChunks(manifest) + 1
    }

    /**
     * Session, tear-down, perhaps a re-staging, and the loop's question whether to go again: never after
     * a deferral, a session that could not begin or one that ended on a live connection.
     */
    method OneMore(battery: Option<real>, stagings: seq<Manifest>, wasStaged: nat, wasBudget: nat)
      returns (again: bool, staged: nat, budget: nat, outcome: Outcome, finalised: bool)
      requires Valid() && WellFormed(manifest) && !sessionActive && eventTask.Idle? && subscribed == []
      requires attempts < OTA_MAX_NO_PROGRESS_ATTEMPTS
      requires wasStaged <= |stagings| && forall m :: m in stagings && m.valid ==> WellFormed(m)
      modifies this
      ensures Valid() && !sessionActive && eventTask.Idle? && subscribed == []
      ensures wasStaged <= staged <= |stagings| && budget <= wasBudget && attempts <= OTA_MAX_NO_PROGRESS_ATTEMPTS
      ensures again <==> && !outcome.Rebooted? && !(finalised && wasBudget == 0) && connLost
                         && installRequested && manifest.valid && manifest.differs && attempts < 3
      ensures again ==> budget == wasBudget - if finalised then 1 else 0
      ensures again ==> WellFormed(manifest) && outcome.Failed? && InSession(outcome.reason)
      ensures again && staged == wasStaged && budget == wasBudget
              ==> ChunksLeft() < old(ChunksLeft()) || (ChunksLeft() == old(ChunksLeft()) && attempts > old(attempts))
    {
      var found: bool := *;
      var io: Io := *;
      staged, budget := wasStaged, wasBudget;
      outcome, finalised := RunSession(battery, found, io);
      Disconnect();
      if outcome.Rebooted? || (finalised && budget == 0) {
        return false, staged, budget, outcome, finalised;
      }
      if finalised {
        budget := budget - 1;
      }
      var restaged: bool := *;
      if restaged && staged < |stagings| {
        OnManifest(stagings[staged]);
        staged := staged + 1;
      }
      var due := UpdateDue();
      again := due && connLost;
    }

    /**
     * The in-cycle reconnect loop. Between two sessions the next of `stagings` may arrive. The run is
     * followed through `patience` finalisations that fail: their attempts are not counted reliably.
     * `connects` is how each attempt to connect goes. It goes on as long as nothing named by `stop` ends it.
     */
    method RunOtaIfDue(battery: Option<real>, stagings: seq<Manifest>, patience: nat, connects: nat -> bool)
      returns (sessions: nat, ghost trace: seq<Ended>, ghost stop: Stop)
      requires Valid() && !sessionActive && eventTask.Idle? && subscribed == []
      requires forall m :: m in stagings && m.valid ==> WellFormed(m)
      modifies this
      ensures Valid() && !sessionActive && eventTask.Idle? && subscribed == []
      ensures sessions == 0 ==> Partial() == old(Partial()) && boot == old(boot) && attempts == old(attempts)
      ensures sessions == 0 || old(installRequested && manifest.valid && manifest.differs)
      ensures attempts <= Max(old(attempts), OTA_MAX_NO_PROGRESS_ATTEMPTS)
      ensures |trace| == sessions && Interrupted(trace, sessions - 1)
      ensures forall i: nat :: i < sessions ==> connects(i)
      ensures old(installRequested && manifest.valid && manifest.differs && attempts < 3) && connects(0)
              ==> sessions > 0
      ensures match stop
              case NotDue => !(installRequested && manifest.valid && manifest.differs && attempts < 3)
              case NoConnection => !connects(sessions)
              case _ => Explains(stop, trace, patience)
    {
      sessions, trace, stop := 0, [], NotDue;
      ghost var wasDue := installRequested && manifest.valid && manifest.differs && attempts < 3;
      var staged, budget := 0, patience;
      var due := UpdateDue();
      var again := due;
      while again
        invariant Valid() && !sessionActive && eventTask.Idle? && subscribed == []
        invariant again ==> WellFormed(manifest) && attempts < OTA_MAX_NO_PROGRESS_ATTEMPTS
        invariant forall i: nat :: i < sessions ==> connects(i)
        invariant sessions > 0 || again == wasDue
        invariant |trace| == sessions && Went(trace, again, stop, budget, patience)
        invariant !again && stop.NotDue?
                  ==> !(installRequested && manifest.valid && manifest.differs && attempts < 3)
        invariant !stop.NoConnection?
        invariant staged <= |stagings| && attempts <= Max(old(attempts), OTA_MAX_NO_PROGRESS_ATTEMPTS)
        invariant sessions == 0 ==> Partial() == old(Partial()) && boot == old(boot) && attempts == old(attempts)
        invariant wasDue || sessions == 0
        decreases |stagings| - staged, budget, if again then ChunksLeft() else 0,
                  if again then OTA_MAX_NO_PROGRESS_ATTEMPTS - attempts else 0, again
      {
        if !connects(sessions) {
          stop := NoConnection;
          return;
        }
        var outcome, finalised;
        ghost var left := budget;
        again, staged, budget, outcome, finalised := OneMore(battery, stagings, staged, budget);
        ghost var e := Ended(outcome, connLost, finalised);
        WentOn(trace, e, again, stop, left, budget, patience);
        trace, stop := trace + [e], StopAfter(e, left);
        sessions := sessions + 1;
      }
    }
  }
}
