/**
 * The persistent MQTT session of main/mqtt_sender.cpp: when a wake may go without a SUBSCRIBE. The
 * device, a broker that may lose its sessions, and the ordered streams between them.
 */
module SessionFlag {

  // ---- the device ------------------------------------------------------------------------------------------

  /** `flag` is s_session_subscribed; the rest is the context of one connection. */
  datatype Device = Device(flag: bool, subscribed: bool, subscribing: bool)

  const BOOTED: Device := Device(false, false, false)

  function OnConnect(d: Device): (e: Device) {
    d.(subscribed := false, subscribing := false)
  }

  /** The CONNACK decides whether this wake subscribes. */
  function OnConnAck(d: Device, present: bool): (e: Device) {
    var flag := d.flag && present;
    d.(flag := flag, subscribing := !flag)
  }

  function OnSubAck(d: Device, granted: bool): (e: Device) {
    d.(subscribed := d.subscribed || granted)
  }

  function OnStateAcked(d: Device): (e: Device) {
    d.(flag := d.flag || (d.subscribing && d.subscribed))
  }

  class PersistentSession {
    var sessionSubscribed: bool
    var present: bool
    var subscribed: bool
    var subscribing: bool

    ghost function Now(): (d: Device)
      reads this
    {
      Device(sessionSubscribed, subscribed, subscribing)
    }

    constructor ()
      ensures Now() == BOOTED && !present
    {
      sessionSubscribed, present, subscribed, subscribing := false, false, false, false;
    }

    method StartPersistentClient()
      modifies this`present, this`subscribed, this`subscribing
      ensures Now() == OnConnect(old(Now())) && !present
    {
      present, subscribed, subscribing := false, false, false;
    }

    /** Returns whether a SUBSCRIBE goes out ahead of the state message. */
    method Connected(sessionPresent: bool) returns (subscribe: bool)
      modifies this`present, this`sessionSubscribed, this`subscribing
      ensures Now() == OnConnAck(old(Now()), sessionPresent)
      ensures present == sessionPresent && subscribe == !sessionSubscribed
    {
      present := sessionPresent;
      if !present {
        sessionSubscribed := false;
      }
      subscribe := !sessionSubscribed;
      subscribing := subscribe;
    }

    method SubAcked(refused: bool)
      modifies this`subscribed
      ensures Now() == OnSubAck(old(Now()), !refused)
    {
      if !refused {
        subscribed := true;
      }
    }

    method StateAcked()
      modifies this`sessionSubscribed
      ensures Now() == OnStateAcked(old(Now()))
    {
      if subscribing && subscribed {
        sessionSubscribed := true;
      }
    }
  }

  // ---- device, broker and the streams between them -----------------------------------------------------------

  datatype Up = ConnectUp | SubscribeUp | PublishUp
  datatype Down = ConnAck(present: bool) | SubAck(granted: bool) | RetainedSet | PubAck

  datatype Session = NoSession | Empty | Holding

  /**
   * `received` is whether this boot had the retained set, `granted` whether the broker granted all
   * filters on this connection, and `orphaned` whether the CONNACK of a session created anew was lost
   * while the flag was set.
   */
  datatype World = World(device: Device, online: bool, up: seq<Up>, down: seq<Down>, session: Session,
                         received: bool, granted: bool, orphaned: bool)

  const START: World := World(BOOTED, false, [], [], NoSession, false, false, false)

  datatype Event =
    | Connect
    | BrokerTakes(grant: bool, setFirst: bool)
    | DeviceTakes(inTime: bool)
    | LinkDies
    | BrokerLosesSessions
    | Reboot

  function Offline(w: World): (v: World) {
    w.(online := false, up := [], down := [], granted := false)
  }

  /** The broker answers the first message it has not read; a grant brings the retained set at once. */
  function BrokerStep(w: World, grant: bool, setFirst: bool): (v: World)
    requires w.up != []
  {
    var rest := w.(up := w.up[1..]);
    match w.up[0]
    case ConnectUp =>
      rest.(down := w.down + [ConnAck(!w.session.NoSession?)],
            session := if w.session.NoSession? then Empty else w.session)
    case SubscribeUp =>
      if grant then
        rest.(down := w.down + (if setFirst then [RetainedSet, SubAck(true)] else [SubAck(true), RetainedSet]),
              session := Holding, granted := true)
      else rest.(down := w.down + [SubAck(false)])
    case PublishUp => rest.(down := w.down + [PubAck])
  }

  /** The device handles the next message; an acknowledgement past its wait changes nothing. */
  function DeviceStep(w: World, inTime: bool): (v: World)
    requires w.down != []
  {
    var rest := w.(down := w.down[1..]);
    match w.down[0]
    case ConnAck(present) =>
      var d := OnConnAck(w.device, present);
      rest.(device := d, up := w.up + if d.subscribing then [SubscribeUp, PublishUp] else [PublishUp])
    case SubAck(granted) => rest.(device := OnSubAck(w.device, granted))
    case RetainedSet => rest.(received := true)
    case PubAck => if inTime then rest.(device := OnStateAcked(w.device)) else rest
  }

  function Step(w: World, e: Event): (v: World) {
    match e
    case Connect =>
      if w.online then w
      else Offline(w).(online := true, up := [ConnectUp], device := OnConnect(w.device))
    case BrokerTakes(grant, setFirst) => if w.up == [] then w else BrokerStep(w, grant, setFirst)
    case DeviceTakes(inTime) => if w.down == [] then w else DeviceStep(w, inTime)
    case LinkDies =>
      Offline(w).(orphaned := w.orphaned || (w.device.flag && ConnAck(false) in w.down))
    case BrokerLosesSessions => Offline(w).(session := NoSession, orphaned := false)
    case Reboot => Offline(w).(device := BOOTED, received := false, orphaned := false)
  }

  function Run(events: seq<Event>): (w: World) {
    if events == [] then START else Step(Run(events[..|events| - 1]), events[|events| - 1])
  }

  // ---- the invariant -------------------------------------------------------------------------------------------

  /** Every acknowledgement of the state message has the retained set ahead of it on the stream. */
  ghost predicate SetBeforeAck(down: seq<Down>) {
    forall j :: 0 <= j < |down| && down[j].PubAck? ==> RetainedSet in down[..j]
  }

  ghost predicate Answered(down: seq<Down>) {
    ConnAck(true) in down || ConnAck(false) in down
  }

  /** The stages of a connection: which messages may be in the streams. */
  ghost predicate Streams(w: World) {
    && (w.up == [] || w.up == [ConnectUp] || w.up == [SubscribeUp, PublishUp] || w.up == [PublishUp])
    && (!w.online ==> w.up == [] && w.down == [] && !w.granted)
    && (w.up == [ConnectUp] || w.up == [SubscribeUp, PublishUp] ==> w.down == [] && !w.granted && !w.device.subscribed)
    && (Answered(w.down) ==> w.up == [] && |w.down| == 1 && !w.granted && !w.device.subscribed)
    && (w.online && w.up != [ConnectUp] ==> !w.session.NoSession?)
    && (ConnAck(false) in w.down ==> w.session.Empty?)
    && (w.up == [SubscribeUp, PublishUp] ==> !w.device.flag)
  }

  /** A grant on this connection: the broker holds the filters, and the retained set comes before any PUBACK. */
  ghost predicate Granted(w: World) {
    && (w.granted ==> w.session.Holding? && !Answered(w.down))
    && (w.online && w.device.subscribed ==> w.granted)
    && (SubAck(true) in w.down ==> w.granted)
    && (w.granted ==> w.received || (RetainedSet in w.down && SetBeforeAck(w.down)))
  }

  /** What the flag stands for while the streams are in motion. */
  ghost predicate FlagMeans(w: World) {
    && (w.device.flag ==> w.received)
    && (w.orphaned ==> w.device.flag && w.session.Empty? && ConnAck(false) !in w.down)
    && (w.device.flag && !w.orphaned && w.session.Empty? ==> ConnAck(false) in w.down)
  }

  ghost predicate Invariant(w: World) {
    Streams(w) && Granted(w) && FlagMeans(w)
  }

  lemma ConnectTaken(w: World, grant: bool, setFirst: bool)
    requires Invariant(w) && w.up == [ConnectUp]
    ensures Invariant(BrokerStep(w, grant, setFirst))
  {
    assert w.down == [] && w.up[1..] == [];
    assert BrokerStep(w, grant, setFirst).down == [ConnAck(!w.session.NoSession?)];
  }

  lemma SubscribeTaken(w: World, grant: bool, setFirst: bool)
    requires Invariant(w) && w.up == [SubscribeUp, PublishUp]
    ensures Invariant(BrokerStep(w, grant, setFirst))
  {
    var v := BrokerStep(w, grant, setFirst);
    assert w.up[1..] == [PublishUp];
    if grant {
      assert v.down == if setFirst then [RetainedSet, SubAck(true)] else [SubAck(true), RetainedSet];
    } else {
      assert v.down == [SubAck(false)];
    }
  }

  lemma AckAppended(down: seq<Down>)
    requires SetBeforeAck(down) && RetainedSet in down
    ensures SetBeforeAck(down + [PubAck])
  {
    assert forall j :: 0 <= j < |down| ==> (down + [PubAck])[..j] == down[..j];
    assert (down + [PubAck])[..|down|] == down;
  }

  lemma PublishTaken(w: World, grant: bool, setFirst: bool)
    requires Invariant(w) && w.up == [PublishUp]
    ensures Invariant(BrokerStep(w, grant, setFirst))
  {
    assert w.up[1..] == [];
    if w.granted && !w.received {
      AckAppended(w.down);
    }
  }

  lemma SetStaysAhead(down: seq<Down>)
    requires down != [] && SetBeforeAck(down) && RetainedSet in down && !down[0].RetainedSet?
    ensures SetBeforeAck(down[1..]) && RetainedSet in down[1..] && !down[0].PubAck?
  {
    var rest := down[1..];
    forall j | 0 <= j < |rest| && rest[j].PubAck?
      ensures RetainedSet in rest[..j]
    {
      assert RetainedSet in down[..j + 1];
      assert down[..j + 1][1..] == rest[..j];
    }
  }

  lemma HandlesKeeps(w: World, inTime: bool)
    requires Invariant(w) && w.down != []
    ensures Invariant(DeviceStep(w, inTime))
  {
    if w.granted && !w.received && !w.down[0].RetainedSet? {
      SetStaysAhead(w.down);
    }
    if w.down[0].ConnAck? {
      assert w.down[1..] == [];
    }
  }

  lemma StepKeeps(w: World, e: Event)
    requires Invariant(w)
    ensures Invariant(Step(w, e))
  {
    match e
    case BrokerTakes(grant, setFirst) =>
      if w.up == [ConnectUp] {
        ConnectTaken(w, grant, setFirst);
      } else if w.up == [SubscribeUp, PublishUp] {
        SubscribeTaken(w, grant, setFirst);
      } else if w.up != [] {
        PublishTaken(w, grant, setFirst);
      }
    case DeviceTakes(inTime) =>
      if w.down != [] {
        HandlesKeeps(w, inTime);
      }
    case _ =>
  }

  lemma {:induction false} RunKeeps(events: seq<Event>)
    ensures Invariant(Run(events))
  {
    if events != [] {
      RunKeeps(events[..|events| - 1]);
      StepKeeps(Run(events[..|events| - 1]), events[|events| - 1]);
    }
  }

  // ---- the promise --------------------------------------------------------------------------------------------

  /** The device is about to handle a CONNACK: this wake's publish decision. */
  predicate Deciding(w: World) {
    w.down != [] && w.down[0].ConnAck?
  }

  /**
   * In every run, a wake that decides to go without a SUBSCRIBE belongs to a boot that received the
   * retained set, and the broker's session holds the filters exactly if no fresh session was orphaned.
   */
  lemma DecisionIsSound(events: seq<Event>, inTime: bool)
    requires Deciding(Run(events))
    ensures var w := Step(Run(events), DeviceTakes(inTime));
            w.device.flag ==> w.received && (w.session.Holding? <==> !w.orphaned)
    ensures var w := Step(Run(events), DeviceTakes(inTime));
            w.up == if w.device.flag then [PublishUp] else [SubscribeUp, PublishUp]
  {
    RunKeeps(events);
    StepKeeps(Run(events), DeviceTakes(inTime));
    var w := Run(events);
    assert w.down[0] in w.down && Answered(w.down);
    assert w.down[1..] == [];
  }

  /** A CONNECT that creates a session gets its CONNACK through, at least while the flag is set. */
  ghost predicate FreshAnswered(events: seq<Event>) {
    forall n :: 0 <= n < |events| && events[n].LinkDies?
                ==> !(Run(events[..n]).device.flag && ConnAck(false) in Run(events[..n]).down)
  }

  lemma OnlyALostAnswerOrphans(w: World, e: Event)
    requires !w.orphaned && !(e.LinkDies? && w.device.flag && ConnAck(false) in w.down)
    ensures !Step(w, e).orphaned
  {
  }

  /** Under that assumption nothing is ever orphaned, and the flag keeps its promise at every wake. */
  lemma {:induction false} NothingOrphaned(events: seq<Event>)
    requires FreshAnswered(events)
    ensures !Run(events).orphaned
  {
    if events != [] {
      var before := events[..|events| - 1];
      forall n | 0 <= n < |before| && before[n].LinkDies?
        ensures !(Run(before[..n]).device.flag && ConnAck(false) in Run(before[..n]).down)
      {
        assert before[..n] == events[..n];
      }
      NothingOrphaned(before);
      OnlyALostAnswerOrphans(Run(before), events[|events| - 1]);
    }
  }

  /** An orphaned session stays one, and no wake subscribes, until the broker forgets it or the device reboots. */
  lemma OrphanStays(w: World, e: Event)
    requires Invariant(w) && w.orphaned && !e.BrokerLosesSessions? && !e.Reboot?
    ensures Step(w, e).orphaned && Step(w, e).session.Empty? && Step(w, e).device.flag
    ensures SubscribeUp !in Step(w, e).up
  {
    StepKeeps(w, e);
  }

  /** The device handles everything on its stream, in time. */
  function HandleThree(w: World): (v: World) {
    Step(Step(Step(w, DeviceTakes(true)), DeviceTakes(true)), DeviceTakes(true))
  }

  /** The first half of a wake without the flag: the broker has answered SUBSCRIBE and state message. */
  function AskAndAnswer(w: World, setFirst: bool): (v: World) {
    var decided := Step(Step(Step(w, Connect), BrokerTakes(true, setFirst)), DeviceTakes(true));
    Step(Step(decided, BrokerTakes(true, setFirst)), BrokerTakes(true, setFirst))
  }

  /** Everything the device still has to handle of such a wake. */
  ghost predicate AllGranted(w: World, setFirst: bool) {
    && w.down == (if setFirst then [RetainedSet, SubAck(true)] else [SubAck(true), RetainedSet]) + [PubAck]
    && w.device.subscribing && w.session.Holding? && !w.orphaned
  }

  lemma WakeIsAnswered(w: World, setFirst: bool)
    requires Invariant(w) && !w.online && !w.device.flag
    ensures Invariant(AskAndAnswer(w, setFirst)) && AllGranted(AskAndAnswer(w, setFirst), setFirst)
  {
    var asked := Step(Step(w, Connect), BrokerTakes(true, setFirst));
    assert asked.down == [ConnAck(!w.session.NoSession?)];
    var decided := Step(asked, DeviceTakes(true));
    assert decided.up == [SubscribeUp, PublishUp] && decided.down == [];
    StepKeeps(w, Connect);
    StepKeeps(Step(w, Connect), BrokerTakes(true, setFirst));
    StepKeeps(asked, DeviceTakes(true));
    StepKeeps(decided, BrokerTakes(true, setFirst));
    StepKeeps(Step(decided, BrokerTakes(true, setFirst)), BrokerTakes(true, setFirst));
  }

  lemma AnswersAreHandled(answered: World, setFirst: bool)
    requires Invariant(answered) && AllGranted(answered, setFirst)
    ensures var v := HandleThree(answered);
            Invariant(v) && v.device.flag && v.received && v.session.Holding? && !v.orphaned
  {
    var one := Step(answered, DeviceTakes(true));
    assert one.down == [if setFirst then SubAck(true) else RetainedSet, PubAck];
    assert Step(one, DeviceTakes(true)).down == [PubAck];
    StepKeeps(answered, DeviceTakes(true));
    StepKeeps(one, DeviceTakes(true));
    StepKeeps(Step(one, DeviceTakes(true)), DeviceTakes(true));
  }

  /** One undisturbed wake with a broker that grants is enough to set the flag, whatever was before. */
  lemma OneGoodWakeSubscribes(w: World, setFirst: bool)
    requires Invariant(w) && !w.online && !w.device.flag
    ensures var v := HandleThree(AskAndAnswer(w, setFirst));
            Invariant(v) && v.device.flag && v.received && v.session.Holding? && !v.orphaned
  {
    WakeIsAnswered(w, setFirst);
    AnswersAreHandled(AskAndAnswer(w, setFirst), setFirst);
  }

  /** One lost CONNACK of a fresh session is enough: the next wake skips the SUBSCRIBE on an empty session. */
  lemma LostConnAckOrphans(w: World)
    requires Invariant(w) && !w.online && w.device.flag && w.session.NoSession?
    ensures var asked := Step(Step(w, Connect), BrokerTakes(true, true));
            var lost := Step(asked, LinkDies);
            var again := Step(Step(lost, Connect), BrokerTakes(true, true));
            var decided := Step(again, DeviceTakes(true));
            && asked.down == [ConnAck(false)] && Deciding(again)
            && decided.device.flag && decided.session.Empty? && decided.up == [PublishUp]
            && !Step(asked, DeviceTakes(true)).device.flag
  {
    var asked := Step(Step(w, Connect), BrokerTakes(true, true));
    assert asked.down == [ConnAck(false)] && asked.session.Empty?;
    var lost := Step(asked, LinkDies);
    var again := Step(Step(lost, Connect), BrokerTakes(true, true));
    assert again.down == [ConnAck(true)];
  }

  /** One more event of a run. */
  lemma Then(events: seq<Event>, w: World, e: Event) returns (more: seq<Event>, v: World)
    requires Run(events) == w
    ensures v == Step(w, e) && Run(more) == v
  {
    more, v := events + [e], Step(w, e);
    assert more[..|more| - 1] == events;
  }

  /** A good first wake of a device that was just started, as events of a run. */
  lemma FirstWake() returns (events: seq<Event>, w: World)
    ensures Run(events) == w && Invariant(w) && w.device.flag && w.session.Holding? && !w.orphaned
  {
    events, w := [], START;
    OneGoodWakeSubscribes(START, true);
    events, w := Then(events, w, Connect);
    events, w := Then(events, w, BrokerTakes(true, true));
    events, w := Then(events, w, DeviceTakes(true));
    events, w := Then(events, w, BrokerTakes(true, true));
    events, w := Then(events, w, BrokerTakes(true, true));
    events, w := Then(events, w, DeviceTakes(true));
    events, w := Then(events, w, DeviceTakes(true));
    events, w := Then(events, w, DeviceTakes(true));
  }

  /** Some decision of this run goes without a SUBSCRIBE while the broker's session holds no filter. */
  ghost predicate Breaks(events: seq<Event>) {
    var w := Run(events);
    Deciding(w) && Step(w, DeviceTakes(true)).up == [PublishUp] && Step(w, DeviceTakes(true)).session.Empty?
  }

  /**
   * The failing run from the start: a good wake, a broker that loses its sessions, and a CONNACK lost
   * on the way of the next wake.
   */
  lemma LostConnAckRun()
    ensures exists events: seq<Event> :: Breaks(events)
  {
    var events, w := FirstWake();
    events, w := Then(events, w, BrokerLosesSessions);
    RunKeeps(events);
    LostConnAckOrphans(w);
    events, w := Then(events, w, Connect);
    events, w := Then(events, w, BrokerTakes(true, true));
    events, w := Then(events, w, LinkDies);
    events, w := Then(events, w, Connect);
    events, w := Then(events, w, BrokerTakes(true, true));
    assert Breaks(events);
  }
}
