/** The store-and-forward ring of main/history_log.cpp and its replay by the publish task. */
module HistoryRing {
  import opened Words

  const CAPACITY: nat := 8192
  const BACKFILL_BATCH_SIZE: nat := 20
  const BACKFILL_MAX_BATCHES_PER_CYCLE: nat := 5

  datatype Record = Record(capturedUs: int, temp: real, hum: real)
  datatype Entry = Entry(agoSec: uint32, temp: real, hum: real)

  function RingIndex(counter: nat): (i: nat)
    ensures i < CAPACITY
  {
    counter % CAPACITY
  }

  function CorrectedTail(head: uint32, tail: uint32): (t: uint32) {
    if Wrap32(head - tail) > CAPACITY then Wrap32(head - CAPACITY) else tail
  }

  function ToEntry(r: Record, nowUs: int): (e: Entry) {
    var agoUs := nowUs - r.capturedUs;
    Entry(if agoUs > 0 then Wrap32(agoUs / 1_000_000) else 0, r.temp, r.hum)
  }

  /** What an entry carries: the record's two readings and its age in whole seconds, none for a future time. */
  lemma EntryFields(r: Record, nowUs: int, seconds: nat)
    ensures ToEntry(r, nowUs).temp == r.temp && ToEntry(r, nowUs).hum == r.hum
    ensures nowUs <= r.capturedUs ==> ToEntry(r, nowUs).agoSec == 0
    ensures 1_000_000 * seconds <= nowUs - r.capturedUs < 1_000_000 * (seconds + 1) && seconds < 0x1_0000_0000
            ==> ToEntry(r, nowUs).agoSec == seconds
  {
  }

  /** The first record not yet lost: the oldest of the newest CAPACITY ones, or the cursor. */
  function Oldest(appended: nat, cursor: nat): (t: nat) {
    Max(cursor, appended - CAPACITY)
  }

  /** What became of a record that is no longer pending. */
  datatype Fate = Confirmed | Overwritten

  ghost function Repeat(fate: Fate, n: nat): (s: seq<Fate>)
    ensures |s| == n && forall k :: 0 <= k < n ==> s[k] == fate
  {
    seq(n, _ => fate)
  }

  /** Which record a slot holds once `appended` records were written: the newest that maps to it. */
  ghost predicate Holds(appended: nat, slot: nat, i: nat) {
    i < appended && RingIndex(i) == slot && forall j :: i < j < appended ==> RingIndex(j) != slot
  }

  /** The wrapped index arithmetic agrees with the unbounded one: CAPACITY divides 2^32. */
  lemma RingIndexWraps(n: nat)
    ensures RingIndex(Wrap32(n)) == RingIndex(n)
  {
    var q := n / 0x1_0000_0000;
    assert n == Wrap32(n) + CAPACITY * (0x8_0000 * q);
    ModAddMultiple(Wrap32(n), 0x8_0000 * q);
  }

  lemma ModAddMultiple(a: nat, q: nat)
    ensures RingIndex(a + CAPACITY * q) == RingIndex(a)
  {
  }

  /** The correction on wrapped counters is the correction on the unbounded ones. */
  lemma CorrectedTailIsOldest(appended: nat, cursor: nat)
    requires cursor <= appended && appended - cursor < 0x1_0000_0000
    ensures CorrectedTail(Wrap32(appended), Wrap32(cursor)) == Wrap32(Oldest(appended, cursor))
    ensures Wrap32(Wrap32(appended) - Wrap32(Oldest(appended, cursor))) == appended - Oldest(appended, cursor)
  {
    WrapDifference(appended, cursor);
    WrapDifference(appended, Oldest(appended, cursor));
    if appended - cursor > CAPACITY {
      WrapSum(appended, 0 - CAPACITY as int);
    }
  }

  /** A slot that record `i` maps to still holds it exactly while fewer than CAPACITY newer ones were written. */
  lemma IntactUntilLapped(appended: nat, i: nat)
    requires i < appended
    ensures Holds(appended, RingIndex(i), i) <==> appended <= i + CAPACITY
  {
    if appended > i + CAPACITY {
      ModAddMultiple(i, 1);
      assert RingIndex(i + CAPACITY) == RingIndex(i);
    } else {
      forall j | i < j < appended
        ensures RingIndex(j) != RingIndex(i)
      {
        DistinctSlots(i, j);
      }
    }
  }

  lemma DistinctSlots(i: nat, j: nat)
    requires i < j < i + CAPACITY
    ensures RingIndex(i) != RingIndex(j)
  {
  }

  /** The record that occupies the slot of counter `i` once `appended` records were written. */
  ghost function Newest(appended: nat, i: nat): (j: nat)
    requires i < appended
    ensures i <= j < appended
    decreases appended - i
  {
    if appended <= i + CAPACITY then i else Newest(appended, i + CAPACITY)
  }

  lemma NewestHolds(appended: nat, i: nat)
    requires i < appended
    ensures Holds(appended, RingIndex(i), Newest(appended, i)) && appended <= Newest(appended, i) + CAPACITY
    decreases appended - i
  {
    if appended <= i + CAPACITY {
      IntactUntilLapped(appended, i);
    } else {
      ModAddMultiple(i, 1);
      NewestHolds(appended, i + CAPACITY);
    }
  }

  /** `e` is the record that the slot of counter `i` held when `appended` records had been written. */
  ghost predicate Copied(log: seq<Record>, i: nat, appended: nat, e: Entry, nowUs: int) {
    i < appended <= |log| && e == ToEntry(log[Newest(appended, i)], nowUs)
  }

  ghost predicate AllCopied(log: seq<Record>, start: nat, seen: seq<nat>, out: seq<Entry>, nowUs: int) {
    && |seen| == |out|
    && forall k :: 0 <= k < |out| ==> Copied(log, start + k, seen[k], out[k], nowUs)
  }

  lemma CopiedGrows(log: seq<Record>, more: seq<Record>, start: nat, seen: seq<nat>, out: seq<Entry>, nowUs: int)
    requires log <= more && AllCopied(log, start, seen, out, nowUs)
    ensures AllCopied(more, start, seen, out, nowUs)
  {
    forall k | 0 <= k < |out|
      ensures Copied(more, start + k, seen[k], out[k], nowUs)
    {
      assert Copied(log, start + k, seen[k], out[k], nowUs);
    }
  }

  lemma CopiedMore(log: seq<Record>, more: seq<Record>, start: nat, seen: seq<nat>, out: seq<Entry>, e: Entry,
                   nowUs: int)
    requires log <= more && AllCopied(log, start, seen, out, nowUs) && Copied(more, start + |out|, |more|, e, nowUs)
    ensures AllCopied(more, start, seen + [|more|], out + [e], nowUs)
  {
    CopiedGrows(log, more, start, seen, out, nowUs);
  }

  /**
   * A batch element is the record its position asks for exactly when the producer had not passed
   * that record by more than CAPACITY at the read; otherwise the slot's newest record stands in.
   */
  lemma IntactExactlyUntilLapped(log: seq<Record>, i: nat, appended: nat, e: Entry, nowUs: int)
    requires Copied(log, i, appended, e, nowUs)
    ensures Holds(appended, RingIndex(i), i) <==> appended <= i + CAPACITY
    ensures appended <= i + CAPACITY ==>
              e == ToEntry(log[i], nowUs) && e.temp == log[i].temp && e.hum == log[i].hum
    ensures appended > i + CAPACITY ==>
              exists j: nat :: i < j && Holds(appended, RingIndex(i), j) && e == ToEntry(log[j], nowUs)
  {
    IntactUntilLapped(appended, i);
    NewestHolds(appended, i);
  }

  // ---- acknowledgements ----------------------------------------------------------------------------------

  /**
   * The wait for PUBACKs: how many are expected and were received, the bit, and the messages of the MQTT
   * client that are in flight or were acknowledged by the broker. A PUBACK is counted whatever it is for.
   */
  datatype Acks = Acks(expected: nat, received: nat, allAcked: bool, inFlight: set<nat>, confirmed: set<nat>)

  function PubAck(a: Acks, id: nat): (b: Acks) {
    if id in a.inFlight then
      Acks(a.expected, a.received + 1, a.allAcked || a.received + 1 >= a.expected,
           a.inFlight - {id}, a.confirmed + {id})
    else a
  }

  function Arrivals(a: Acks, ids: seq<nat>): (b: Acks) {
    if ids == [] then a else PubAck(Arrivals(a, ids[..|ids| - 1]), ids[|ids| - 1])
  }

  /** A fresh wait for one PUBACK, and the message sent. */
  function Sent(a: Acks, id: nat): (b: Acks) {
    Acks(1, 0, false, a.inFlight + {id}, a.confirmed)
  }

  lemma {:induction false} ArrivalsCount(a: Acks, ids: seq<nat>)
    ensures var b := Arrivals(a, ids);
            && b.inFlight <= a.inFlight && b.confirmed == a.confirmed + (a.inFlight - b.inFlight)
            && b.expected == a.expected && b.received >= a.received
            && (b.received == a.received <==> b.inFlight == a.inFlight)
            && (b.inFlight == a.inFlight ==> b == a)
            && (b.inFlight != a.inFlight && a.expected <= a.received + 1 ==> b.allAcked)
  {
    if ids != [] {
      ArrivalsCount(a, ids[..|ids| - 1]);
    }
  }

  /**
   * The handler counts every acknowledged message once, whatever is acknowledged in whatever order, and the
   * bit is set from the expected number on.
   */
  lemma {:induction false} EachCountedOnce(a: Acks, ids: seq<nat>)
    ensures var b := Arrivals(a, ids);
            && b.received == a.received + |a.inFlight - b.inFlight|
            && (b.allAcked <==> a.allAcked || (b.received > a.received && b.received >= a.expected))
  {
    if ids != [] {
      var before, id := Arrivals(a, ids[..|ids| - 1]), ids[|ids| - 1];
      EachCountedOnce(a, ids[..|ids| - 1]);
      ArrivalsCount(a, ids[..|ids| - 1]);
      if id in before.inFlight {
        assert a.inFlight - (before.inFlight - {id}) == (a.inFlight - before.inFlight) + {id};
      }
    } else {
      assert a.inFlight - a.inFlight == {};
    }
  }

  /**
   * The bit stands for the acknowledgement of the message just sent, whatever arrives, exactly if nothing
   * else was in flight: another message's PUBACK is taken for it.
   */
  lemma OwnAckIff(a: Acks, id: nat)
    requires id !in a.inFlight && id !in a.confirmed
    ensures (forall ids: seq<nat> :: Arrivals(Sent(a, id), ids).allAcked ==> id in Arrivals(Sent(a, id), ids).confirmed)
            <==> a.inFlight == {}
  {
    if a.inFlight == {} {
      forall ids: seq<nat> | Arrivals(Sent(a, id), ids).allAcked
        ensures id in Arrivals(Sent(a, id), ids).confirmed
      {
        OwnAck(a, id, ids);
      }
    } else {
      var other :| other in a.inFlight;
      OneArrival(Sent(a, id), other);
      var b := Arrivals(Sent(a, id), [other]);
      assert b.allAcked && id !in b.confirmed;
    }
  }

  lemma OneArrival(a: Acks, id: nat)
    ensures Arrivals(a, [id]) == PubAck(a, id)
  {
    assert [id][..0] == [];
  }

  lemma OwnAck(a: Acks, id: nat, ids: seq<nat>)
    requires a.inFlight == {}
    ensures var b := Arrivals(Sent(a, id), ids);
            (b.allAcked <==> b.inFlight == {}) && (b.allAcked ==> id in b.confirmed)
  {
    ArrivalsCount(Sent(a, id), ids);
  }

  /** The context shared by the publish task and the MQTT event handler, with the client's outbox. */
  class MqttCtx {
    var expectedAcks: nat
    var receivedAcks: nat
    var allAcked: bool
    var inFlight: set<nat>
    ghost var confirmed: set<nat>

    ghost function Now(): (a: Acks)
      reads this
    {
      Acks(expectedAcks, receivedAcks, allAcked, inFlight, confirmed)
    }

    /** The event handler, once per PUBACK. */
    method Published(id: nat)
      requires id in inFlight
      modifies this
      ensures Now() == PubAck(old(Now()), id)
    {
      inFlight := inFlight - {id};
      confirmed := confirmed + {id};
      receivedAcks := receivedAcks + 1;
      if receivedAcks >= expectedAcks {
        allAcked := true;
      }
    }

    /** Whatever PUBACKs arrive while the publish task is between two of its own steps, or waits. */
    method EventsArrive() returns (ghost ids: seq<nat>)
      modifies this
      ensures Now() == Arrivals(old(Now()), ids)
    {
      ids := [];
      var more: nat := *;
      while more > 0 && inFlight != {}
        invariant Now() == Arrivals(old(Now()), ids)
      {
        var id :| id in inFlight;
        assert (ids + [id])[..|ids|] == ids;
        Published(id);
        ids := ids + [id];
        more := more - 1;
      }
    }

    /** Sends one message and waits for the bit; with nothing else in flight it is that message's PUBACK. */
    method SendAndWait(id: nat) returns (acked: bool)
      requires id !in inFlight
      modifies this
      ensures confirmed >= old(confirmed) && inFlight <= old(inFlight) + {id}
      ensures old(inFlight) == {} ==> (if acked then inFlight == {} && id in confirmed else inFlight == {id})
    {
      ghost var late := EventsArrive();
      ArrivalsCount(old(Now()), late);
      StartWait();
      acked := Await(id);
    }

    /** The counters and the bit are reset one after the other. */
    method StartWait()
      modifies this
      ensures confirmed >= old(confirmed) && inFlight <= old(inFlight)
      ensures old(inFlight) == {} ==> Now() == Acks(1, 0, false, {}, old(confirmed))
    {
      expectedAcks := 1;
      ghost var was := Now();
      ghost var late := EventsArrive();
      ArrivalsCount(was, late);
      receivedAcks := 0;
      was := Now();
      late := EventsArrive();
      ArrivalsCount(was, late);
      allAcked := false;
    }

    method Await(id: nat) returns (acked: bool)
      requires id !in inFlight
      modifies this
      ensures confirmed >= old(confirmed) && inFlight <= old(inFlight) + {id}
      ensures old(inFlight) == {} && old(Now()) == Acks(1, 0, false, {}, old(confirmed))
              ==> if acked then inFlight == {} && id in confirmed else inFlight == {id}
    {
      ghost var before := Now();
      inFlight := inFlight + {id};
      ghost var was := Now();
      ghost var ids := EventsArrive();
      ArrivalsCount(was, ids);
      if before == Acks(1, 0, false, {}, before.confirmed) {
        OwnAck(before, id, ids);
      }
      acked := allAcked;
    }
  }

  // ---- the ring ------------------------------------------------------------------------------------------

  class HistoryLog {
    const ring: array<Record>
    var head: uint32
    var tail: uint32

    /** Everything ever appended, and the tail counter as if it never wrapped. */
    ghost var log: seq<Record>
    ghost var cursor: nat
    /** The one fate of each record below the cursor; the records from the cursor on are pending. */
    ghost var fate: seq<Fate>

    ghost predicate Valid()
      reads this, ring
    {
      && ring.Length == CAPACITY
      && Distance() < 0x1_0000_0000
      && head == Wrap32(|log|) && tail == Wrap32(cursor)
      && (forall i :: Max(0, |log| - CAPACITY) <= i < |log| ==> ring[RingIndex(i)] == log[i])
      && |fate| == cursor
    }

    ghost function Distance(): (d: int)
      reads this
    {
      if cursor <= |log| then |log| - cursor else 0x1_0000_0000
    }

    constructor ()
      ensures Valid() && fresh(ring)
      ensures log == [] && cursor == 0
    {
      ring := new Record[CAPACITY](_ => Record(0, 0.0, 0.0));
      head, tail := 0, 0;
      log, cursor, fate := [], 0, [];
    }

    method Append(r: Record)
      requires Valid() && Distance() + 1 < 0x1_0000_0000
      modifies this`head, this`log, ring
      ensures Valid() && log == old(log) + [r]
    {
      RingIndexWraps(|log|);
      var slot := RingIndex(head);
      forall i | Max(0, |log| + 1 - CAPACITY) <= i < |log|
        ensures RingIndex(i) != slot
      {
        DistinctSlots(i, |log|);
      }
      WrapSum(|log|, 1);
      ring[slot] := r;
      head := Wrap32(head + 1);
      log := log + [r];
    }

    method HasPending() returns (pending: bool)
      requires Valid()
      ensures pending <==> cursor < |log|
    {
      WrapInjective(cursor, |log|);
      pending := head != tail;
    }

    /** Whatever the sensor task appends while the publish task is between two of its own steps. */
    method ProducerRuns()
      requires Valid()
      modifies this`head, this`log, ring
      ensures Valid() && old(log) <= log
    {
      var n: nat := *;
      var more := n;
      while more > 0
        invariant Valid() && old(log) <= log
        decreases more
      {
        WrapDifference(|log|, cursor);
        if Wrap32(head - tail) + 1 < 0x1_0000_0000 {
          var r: Record := *;
          Append(r);
        }
        more := more - 1;
      }
    }

    /** One element of the copy, after whatever the producer appended in the meantime. */
    method ReadPending(t: uint32, i: nat, nowUs: int) returns (e: Entry)
      requires Valid() && t == Wrap32(cursor) && i < CAPACITY && cursor + i < |log|
      modifies this`head, this`log, ring
      ensures Valid() && old(log) <= log
      ensures Copied(log, cursor + i, |log|, e, nowUs)
    {
      ProducerRuns();
      // The two physical chunks of the pending range: [tail index, CAPACITY), then [0, ..).
      var tailIdx := RingIndex(t);
      var idx := if i < CAPACITY - tailIdx then tailIdx + i else i - (CAPACITY - tailIdx);
      SeamIndex(cursor, i, t);
      e := ToEntry(ring[idx], nowUs);
      NewestHolds(|log|, cursor + i);
    }

    /** The first half of a peek: jump over the records lost to lapping and count the pending ones. */
    method SkipLapped() returns (pending: nat)
      requires Valid()
      modifies this`tail, this`cursor, this`fate
      ensures Valid() && cursor == Oldest(|log|, old(cursor)) && pending == |log| - cursor
      ensures fate == old(fate) + Repeat(Overwritten, cursor - old(cursor))
    {
      CorrectedTailIsOldest(|log|, cursor);
      var corrected := CorrectedTail(head, tail);
      if corrected != tail {
        tail := corrected;
      }
      fate := fate + Repeat(Overwritten, Oldest(|log|, cursor) - cursor);
      cursor := Oldest(|log|, cursor);
      pending := Wrap32(head as int - tail);
    }

    /**
     * Copies up to `room` pending records, oldest first, while the producer may append before any
     * of the reads. `seen[i]` is how many records had been appended when element `i` was read.
     */
    method PeekBatch(room: nat, nowUs: int) returns (out: seq<Entry>, ghost seen: seq<nat>)
      requires Valid()
      modifies this, ring
      ensures Valid() && old(log) <= log
      ensures cursor == Oldest(|old(log)|, old(cursor))
      ensures fate == old(fate) + Repeat(Overwritten, cursor - old(cursor))
      ensures |out| == |seen| == Min(|old(log)| - cursor, room)
      ensures forall i :: 0 <= i < |seen| ==> |old(log)| <= seen[i]
      ensures AllCopied(log, cursor, seen, out, nowUs)
    {
      var pending := SkipLapped();
      var t := tail;
      var count := Min(pending, room);
      out, seen := [], [];
      var i := 0;
      while i < count
        invariant Valid() && 0 <= i <= count && old(log) <= log
        invariant cursor == Oldest(|old(log)|, old(cursor)) && t == Wrap32(cursor)
        invariant fate == old(fate) + Repeat(Overwritten, cursor - old(cursor))
        invariant |out| == |seen| == i
        invariant forall k :: 0 <= k < i ==> |old(log)| <= seen[k]
        invariant AllCopied(log, cursor, seen, out, nowUs)
      {
        ghost var before := log;
        var e := ReadPending(t, i, nowUs);
        CopiedMore(before, log, cursor, seen, out, e, nowUs);
        out, seen := out + [e], seen + [|log|];
        i := i + 1;
      }
    }

    method Advance(count: nat)
      requires Valid() && cursor + count <= |log|
      modifies this`tail, this`cursor, this`fate
      ensures Valid() && cursor == old(cursor) + count
      ensures fate == old(fate) + Repeat(Confirmed, count)
    {
      WrapSum(cursor, count);
      fate := fate + Repeat(Confirmed, count);
      tail := Wrap32(tail + count);
      cursor := cursor + count;
    }

    /**
     * One batch of the replay, sent as message `id`, while the producer keeps appending. It is consumed
     * exactly if the bit was seen; with nothing else in flight that is its own acknowledgement.
     */
    method ReplayBatch(ctx: MqttCtx, id: nat, nowUs: int)
      returns (acked: bool, batch: seq<Entry>, ghost seen: seq<nat>)
      requires Valid() && id !in ctx.inFlight
      modifies this, ring, ctx
      ensures Valid() && old(log) <= log
      ensures |batch| == |seen| == Min(|old(log)| - Oldest(|old(log)|, old(cursor)), BACKFILL_BATCH_SIZE)
      ensures AllCopied(log, Oldest(|old(log)|, old(cursor)), seen, batch, nowUs)
      ensures fate == old(fate) + Repeat(Overwritten, Oldest(|old(log)|, old(cursor)) - old(cursor))
                      + Repeat(Confirmed, if acked then |batch| else 0)
      ensures ctx.confirmed >= old(ctx.confirmed) && ctx.inFlight <= old(ctx.inFlight) + {id}
      ensures old(ctx.inFlight) == {} && acked ==> id in ctx.confirmed && ctx.inFlight == {}
    {
      batch, seen := PeekBatch(BACKFILL_BATCH_SIZE, nowUs);
      acked := ctx.SendAndWait(id);
      // Appends continued until the PUBACK arrived or the wait gave up.
      ghost var before := log;
      ProducerRuns();
      CopiedGrows(before, log, cursor, seen, batch, nowUs);
      if acked {
        Advance(|batch|);
      }
    }

    /** One turn of the replay, with the trips of the records confirmed so far kept up to date. */
    method ReplayTurn(ctx: MqttCtx, id: nat, nowUs: int, ghost trips: map<nat, Trip>, ghost from: nat)
      returns (acked: bool, ghost more: map<nat, Trip>)
      requires Valid() && id !in ctx.inFlight
      requires from <= |fate| && Tracks(trips, from, fate) && AllCarried(log, trips, nowUs)
      modifies this, ring, ctx
      ensures Valid() && old(log) <= log && old(fate) <= fate
      ensures Tracks(more, from, fate) && AllCarried(log, more, nowUs)
      ensures ctx.inFlight <= old(ctx.inFlight) + {id}
      ensures old(ctx.inFlight) == {} && AllAcked(trips, old(ctx.confirmed)) ==> AllAcked(more, ctx.confirmed)
      ensures old(ctx.inFlight) == {} && acked ==> ctx.inFlight == {}
    {
      ghost var start := Oldest(|log|, cursor);
      var batch;
      ghost var seen;
      acked, batch, seen := ReplayBatch(ctx, id, nowUs);
      TripsGrow(old(log), log, old(ctx.confirmed), ctx.confirmed, trips, nowUs);
      more := trips;
      if acked {
        more := AddBatch(log, ctx.confirmed, trips, start, seen, batch, id, nowUs);
      }
      TracksMore(trips, more, from, old(fate), fate, start - |old(fate)|, if acked then |batch| else 0);
    }

    /**
     * One publish cycle's replay: up to five batches of twenty. `trips` maps every record this cycle
     * confirmed to how it travelled: what its slot held when it was read, and the message it went in. It
     * goes on until five batches were sent, none is pending, or one was not acknowledged.
     */
    method Replay(ctx: MqttCtx, firstId: nat, nowUs: int)
      returns (batches: nat, acked: bool, ghost trips: map<nat, Trip>)
      requires Valid() && IdsBelow(ctx.inFlight, firstId)
      modifies this, ring, ctx
      ensures Valid() && old(log) <= log && old(fate) <= fate
      ensures Tracks(trips, |old(fate)|, fate) && AllCarried(log, trips, nowUs)
      ensures old(ctx.inFlight) == {} ==> AllAcked(trips, ctx.confirmed)
      ensures batches == 5 || cursor >= |log| || (batches > 0 && !acked)
      ensures batches == 0 ==> unchanged(this) && unchanged(ctx)
    {
      trips := map[];
      batches, acked := 0, true;
      var more := HasPending();
      while batches < BACKFILL_MAX_BATCHES_PER_CYCLE && more && acked
        invariant Valid() && old(log) <= log && old(fate) <= fate
        invariant Tracks(trips, |old(fate)|, fate) && AllCarried(log, trips, nowUs)
        invariant old(ctx.inFlight) == {} ==> AllAcked(trips, ctx.confirmed) && (acked ==> ctx.inFlight == {})
        invariant 0 <= batches <= BACKFILL_MAX_BATCHES_PER_CYCLE && IdsBelow(ctx.inFlight, firstId + batches)
        invariant (more <==> cursor < |log|) && (acked || batches > 0)
        invariant batches == 0 ==> unchanged(this) && unchanged(ctx)
        decreases BACKFILL_MAX_BATCHES_PER_CYCLE - batches
      {
        ghost var flying := ctx.inFlight;
        acked, trips := ReplayTurn(ctx, firstId + batches, nowUs, trips, |old(fate)|);
        IdsGrow(flying, ctx.inFlight, firstId + batches);
        batches := batches + 1;
        more := HasPending();
      }
    }
  }

  /** How a record travelled: what its slot held, after how many appends it was read, in which message it went. */
  datatype Trip = Trip(entry: Entry, readAt: nat, sentAs: nat)

  /** Message numbers already used. */
  ghost predicate IdsBelow(ids: set<nat>, n: nat) {
    forall id :: id in ids ==> id < n
  }

  lemma IdsGrow(ids: set<nat>, more: set<nat>, n: nat)
    requires IdsBelow(ids, n) && more <= ids + {n}
    ensures IdsBelow(more, n + 1)
  {
  }

  /** The trips are those of the records confirmed since the cursor was at `from`. */
  ghost predicate Tracks(trips: map<nat, Trip>, from: nat, fate: seq<Fate>) {
    forall i: nat :: i in trips <==> from <= i < |fate| && fate[i] == Confirmed
  }

  lemma TracksMore(trips: map<nat, Trip>, more: map<nat, Trip>, from: nat, was: seq<Fate>, fate: seq<Fate>,
                   lost: nat, sent: nat)
    requires from <= |was| && Tracks(trips, from, was)
    requires fate == was + Repeat(Overwritten, lost) + Repeat(Confirmed, sent)
    requires forall i: nat :: i in more <==> i in trips || |was| + lost <= i < |was| + lost + sent
    ensures Tracks(more, from, fate)
  {
  }

  /** Every record went out in a message that the broker acknowledged. */
  ghost predicate AllAcked(trips: map<nat, Trip>, confirmed: set<nat>) {
    forall i :: i in trips ==> trips[i].sentAs in confirmed
  }

  /** What an acknowledged batch carried for each record: the content of its slot at the read. */
  ghost predicate AllCarried(log: seq<Record>, trips: map<nat, Trip>, nowUs: int) {
    forall i :: i in trips ==> Copied(log, i, trips[i].readAt, trips[i].entry, nowUs)
  }

  lemma TripsGrow(log: seq<Record>, more: seq<Record>, sure: set<nat>, surer: set<nat>, trips: map<nat, Trip>,
                  nowUs: int)
    requires log <= more && sure <= surer && AllCarried(log, trips, nowUs)
    ensures AllCarried(more, trips, nowUs) && (AllAcked(trips, sure) ==> AllAcked(trips, surer))
  {
    forall i | i in trips
      ensures Copied(more, i, trips[i].readAt, trips[i].entry, nowUs)
    {
      assert Copied(log, i, trips[i].readAt, trips[i].entry, nowUs);
    }
  }

  /** Records the acknowledged batch that starts at counter `start` and went as message `id`. */
  lemma AddBatch(log: seq<Record>, confirmed: set<nat>, trips: map<nat, Trip>, start: nat, seen: seq<nat>,
                 batch: seq<Entry>, id: nat, nowUs: int)
    returns (more: map<nat, Trip>)
    requires AllCarried(log, trips, nowUs) && AllCopied(log, start, seen, batch, nowUs)
    ensures AllCarried(log, more, nowUs)
    ensures AllAcked(trips, confirmed) && id in confirmed ==> AllAcked(more, confirmed)
    ensures forall i: nat :: i in more <==> i in trips || start <= i < start + |batch|
    decreases |batch|
  {
    if batch == [] {
      more := trips;
    } else {
      var n := |batch| - 1;
      assert Copied(log, start + n, seen[n], batch[n], nowUs);
      more := AddBatch(log, confirmed, trips, start, seen[..n], batch[..n], id, nowUs);
      more := more[start + n := Trip(batch[n], seen[n], id)];
    }
  }

  /** Splitting the pending range at the ring's physical end visits the same slots. */
  lemma SeamIndex(cursor: nat, i: nat, t: uint32)
    requires t == Wrap32(cursor) && i < CAPACITY
    ensures var tailIdx := RingIndex(t);
            RingIndex(cursor + i) == if i < CAPACITY - tailIdx then tailIdx + i else i - (CAPACITY - tailIdx)
  {
    RingIndexWraps(cursor);
    var q, m := cursor / CAPACITY, RingIndex(cursor);
    assert cursor + i == m + i + CAPACITY * q;
    ModAddMultiple(m + i, q);
    if m + i >= CAPACITY {
      ModAddMultiple(m + i - CAPACITY, 1);
    }
  }
}
