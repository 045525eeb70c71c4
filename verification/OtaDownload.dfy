/**
 * The resumable download of main/ota_updater.cpp as a value: the partial image that survives broken
 * sessions, and the three blocks that change it under the mutex.
 */
module OtaDownload {
  import opened Words

  const OTA_MAX_CHUNK_SIZE: nat := 8192
  /** The size of an application slot in partitions.csv. */
  const SLOT_SIZE: nat := 1984 * 1024

  type Bytes = seq<byte>
  type Hash = Bytes -> Bytes

  datatype Option<T> = None | Some(value: T)

  datatype Manifest = Manifest(version: string, size: uint32, chunkSize: uint32, sha: Bytes, force: bool,
                               valid: bool, differs: bool)

  /** The streaming hash: after a failed update it can never succeed again. */
  datatype HashOp = Inactive | Running(data: Bytes) | Broken

  /** One chunk message as it reaches the event handler. */
  datatype Delivery = Delivery(index: nat, data: Bytes, offset: nat, total: nat)

  /** The outcomes of the flash and crypto calls that a block may make. */
  datatype Io = Io(write: bool, update: bool, begin: bool, setup: bool, finish: bool, end: bool, setBoot: bool)

  datatype Verdict = Ignored | Rejected | Written

  /** `flash` is what was written through the current handle, `accepted` the chunks counted so far. */
  datatype Download = Download(valid: bool, manifest: Manifest, next: nat, received: nat,
                               handleOpen: bool, flash: Bytes, hash: HashOp, accepted: seq<Bytes>)

  predicate SameImage(m: Manifest, o: Manifest) {
    m.size == o.size && m.chunkSize == o.chunkSize && m.sha == o.sha
  }

  /** A manifest as the parser accepts it. */
  predicate WellFormed(m: Manifest) {
    m.valid && 0 < m.chunkSize <= OTA_MAX_CHUNK_SIZE && 0 < m.size
  }

  function TotalChunks(m: Manifest): (n: nat)
    requires m.chunkSize > 0
  {
    Wrap32(m.size + m.chunkSize - 1) / m.chunkSize
  }

  /** The length the handler asks of the next chunk, in the 32-bit arithmetic of the target. */
  function ExpectedLen(m: Manifest, next: nat): (n: nat) {
    Min(m.chunkSize, Wrap32(m.size - Wrap32(next * m.chunkSize)))
  }

  /** The locked half of the chunk handler. The flash write comes before the hash update. */
  function Judge(dl: Download, d: Delivery, io: Io): (v: Verdict) {
    if d.offset != 0 || d.total != |d.data| then Rejected
    else if d.index != dl.next then Ignored
    else if |d.data| != ExpectedLen(dl.manifest, dl.next) then Rejected
    else if !dl.handleOpen || !io.write then Rejected
    else if !dl.hash.Running? || !io.update then Rejected
    else Written
  }

  function HandleChunk(dl: Download, d: Delivery, io: Io): (t: Download) {
    if Judge(dl, d, io).Written? then Extended(dl, d.data)
    else if d.offset == 0 && d.total == |d.data| && d.index == dl.next
            && |d.data| == ExpectedLen(dl.manifest, dl.next) && dl.handleOpen && io.write then
      dl.(flash := dl.flash + d.data, hash := Broken)
    else dl
  }

  function Extended(dl: Download, data: Bytes): (t: Download)
    requires dl.hash.Running?
  {
    dl.(flash := dl.flash + data, hash := Running(dl.hash.data + data), accepted := dl.accepted + [data],
        next := dl.next + 1, received := dl.received + |data|)
  }

  function Discard(dl: Download): (t: Download) {
    dl.(handleOpen := false, hash := Inactive, valid := false, next := 0, received := 0, accepted := [])
  }

  /** Fresh start or resume; `found` is whether a slot to update into exists. */
  function Begin(dl: Download, m: Manifest, found: bool, io: Io): (t: Download) {
    var u := if dl.valid && !SameImage(m, dl.manifest) then Discard(dl) else dl;
    if u.valid then u
    else if !found || SLOT_SIZE < m.size then u
    else if !io.begin then u.(handleOpen := false)
    else if !io.setup then Discard(u.(flash := []))
    else Download(true, m, 0, 0, true, [], Running([]), [])
  }

  /** Whether a complete download passes verification and the boot partition is flipped to it. */
  predicate FinishOk(dl: Download, m: Manifest, sha256: Hash, io: Io) {
    dl.hash.Running? && io.finish && sha256(dl.hash.data) == m.sha && dl.handleOpen && io.end && io.setBoot
  }

  function Flat(chunks: seq<Bytes>): (b: Bytes) {
    if chunks == [] then [] else Flat(chunks[..|chunks| - 1]) + chunks[|chunks| - 1]
  }

  // ---- what every block keeps ----------------------------------------------------------------

  /**
   * While a partial download is valid and its hash alive, flash, hash and the accepted chunks agree;
   * once the hash broke the flash may run ahead of the accepted chunks by what it failed on.
   */
  ghost predicate Consistent(dl: Download) {
    && dl.handleOpen == dl.valid
    && dl.next == |dl.accepted|
    && dl.received == |Flat(dl.accepted)|
    && (dl.valid ==> WellFormed(dl.manifest) && dl.manifest.size <= SLOT_SIZE && !dl.hash.Inactive?)
    && (!dl.valid ==> dl.hash.Inactive? && dl.accepted == [])
    && (dl.hash.Running? ==> dl.flash == dl.hash.data == Flat(dl.accepted))
    && (forall k :: 0 <= k < |dl.accepted| ==> |dl.accepted[k]| == ExpectedLen(dl.manifest, k))
  }

  lemma FlatSnoc(chunks: seq<Bytes>, c: Bytes)
    ensures Flat(chunks + [c]) == Flat(chunks) + c
  {
    assert (chunks + [c])[..|chunks|] == chunks;
  }

  /** What a delivery may do: nothing, extend the download by its chunk, or break the hash. */
  ghost predicate Progress(dl: Download, t: Download) {
    && t.valid == dl.valid && t.manifest == dl.manifest && t.handleOpen == dl.handleOpen
    && dl.accepted <= t.accepted && dl.next <= t.next && dl.flash <= t.flash
    && (dl.hash.Broken? ==> t.hash.Broken? && t.accepted == dl.accepted && t.next == dl.next)
    && (!dl.valid ==> t == dl)
  }

  /**
   * Exactly which messages extend a download, and by what: a whole message with the next chunk at its
   * length, while the flash and the hash still take it. A whole message with any other chunk is ignored;
   * of all the rest only a failing hash update, after its flash write, leaves a trace.
   */
  lemma ChunkTakenIff(dl: Download, d: Delivery, io: Io)
    requires Consistent(dl)
    ensures var t := HandleChunk(dl, d, io);
            var whole := d.offset == 0 && d.total == |d.data|;
            var fits := whole && d.index == dl.next && |d.data| == ExpectedLen(dl.manifest, dl.next);
            && (Judge(dl, d, io).Ignored? <==> whole && d.index != dl.next)
            && (Judge(dl, d, io).Written? <==> t.next > dl.next)
            && (t.next > dl.next <==> fits && dl.handleOpen && dl.hash.Running? && io.write && io.update)
            && (t.next > dl.next ==>
                  && t.next == dl.next + 1 && t.received == dl.received + |d.data|
                  && t.flash == dl.flash + d.data && t.accepted == dl.accepted + [d.data])
            && (t.next <= dl.next ==>
                  t == if fits && dl.handleOpen && io.write then dl.(flash := dl.flash + d.data, hash := Broken)
                       else dl)
  {
  }

  lemma HandleChunkKeeps(dl: Download, d: Delivery, io: Io)
    requires Consistent(dl)
    ensures Consistent(HandleChunk(dl, d, io)) && Progress(dl, HandleChunk(dl, d, io))
  {
    if Judge(dl, d, io).Written? {
      FlatSnoc(dl.accepted, d.data);
    }
  }

  lemma BeginKeeps(dl: Download, m: Manifest, found: bool, io: Io)
    requires Consistent(dl) && WellFormed(m)
    ensures Consistent(Begin(dl, m, found, io))
    ensures Begin(dl, m, found, io).valid ==> SameImage(m, Begin(dl, m, found, io).manifest)
  {
  }

  /**
   * What a session starts from: a kept download of its image, untouched, exactly if there is one; else
   * nothing of what was fetched before is left, whether the fresh start succeeds or not.
   */
  lemma ResumesIff(dl: Download, m: Manifest, found: bool, io: Io)
    requires Consistent(dl) && WellFormed(m)
    ensures var t := Begin(dl, m, found, io);
            if dl.valid && SameImage(m, dl.manifest) then t == dl
            else
              && t.next == 0 && t.received == 0 && t.accepted == []
              && (t.valid <==> found && m.size <= SLOT_SIZE && io.begin && io.setup)
              && (t.valid ==> t.manifest == m && t.handleOpen && t.flash == [] && t.hash == Running([]))
  {
  }

  /** A run of deliveries, each with its own outcome of the calls it makes. */
  function Deliveries(dl: Download, ds: seq<(Delivery, Io)>): (t: Download) {
    if ds == [] then dl else HandleChunk(Deliveries(dl, ds[..|ds| - 1]), ds[|ds| - 1].0, ds[|ds| - 1].1)
  }

  /** Any deliveries at all, late, stale, of any length and in any order, keep the download consistent. */
  lemma {:induction false} DeliveriesKeep(dl: Download, ds: seq<(Delivery, Io)>)
    requires Consistent(dl)
    ensures Consistent(Deliveries(dl, ds)) && Progress(dl, Deliveries(dl, ds))
  {
    if ds != [] {
      var before := ds[..|ds| - 1];
      DeliveriesKeep(dl, before);
      HandleChunkKeeps(Deliveries(dl, before), ds[|ds| - 1].0, ds[|ds| - 1].1);
    }
  }

  /**
   * A discarded download is gone: no delivery brings anything of it back, it is never flipped to, and
   * the next session on whatever image starts at chunk 0 or not at all.
   */
  lemma DiscardForgets(dl: Download, ds: seq<(Delivery, Io)>, m: Manifest, found: bool, io: Io, sha256: Hash)
    requires Consistent(dl) && WellFormed(m)
    ensures var t := Deliveries(Discard(dl), ds);
            && t == Discard(dl) && !FinishOk(t, m, sha256, io)
            && Begin(t, m, found, io).next == 0 && Begin(t, m, found, io).accepted == []
            && (Begin(t, m, found, io).valid ==> Begin(t, m, found, io).flash == [])
  {
    DeliveriesKeep(Discard(dl), ds);
    ResumesIff(Discard(dl), m, found, io);
  }

  // ---- sizes ---------------------------------------------------------------------------------

  lemma DivisionBounds(a: nat, b: nat)
    requires b > 0
    ensures (a / b) * b <= a < (a / b) * b + b
  {
  }

  lemma MulLe(a: nat, b: nat, c: nat)
    requires a <= b
    ensures a * c <= b * c
  {
  }

  lemma MulPred(n: nat, c: nat)
    requires n > 0
    ensures (n - 1) * c == n * c - c
  {
  }

  /** The number of chunks is the size divided by the chunk size, rounded up, and nothing wraps. */
  lemma TotalIsCeiling(m: Manifest)
    requires WellFormed(m) && m.size <= SLOT_SIZE
    ensures var n := TotalChunks(m);
            0 < n && (n - 1) * m.chunkSize < m.size <= n * m.chunkSize < m.size + m.chunkSize
  {
    DivisionBounds(m.size + m.chunkSize - 1, m.chunkSize);
    MulPred(TotalChunks(m), m.chunkSize);
  }

  lemma NothingWraps(size: uint32, chunk: nat, position: nat)
    requires position < size
    ensures Min(chunk, Wrap32(size - Wrap32(position))) == Min(chunk, size - position)
    ensures Min(position, size) + Min(chunk, size - position) == Min(position + chunk, size)
  {
  }

  lemma PositionInside(size: nat, chunk: nat, total: nat, k: nat)
    requires k < total && (total - 1) * chunk < size
    ensures k * chunk < size && (k + 1) * chunk == k * chunk + chunk
  {
    MulLe(k, total - 1, chunk);
    MulPred(k + 1, chunk);
  }

  /** Inside the image no product or difference wraps: the expected length is the real remainder. */
  lemma ExpectedInside(m: Manifest, k: nat)
    requires WellFormed(m) && m.size <= SLOT_SIZE && k < TotalChunks(m)
    ensures k * m.chunkSize < m.size
    ensures ExpectedLen(m, k) == Min(m.chunkSize, m.size - k * m.chunkSize)
    ensures Min(k * m.chunkSize, m.size) + ExpectedLen(m, k) == Min((k + 1) * m.chunkSize, m.size)
  {
    TotalIsCeiling(m);
    PositionInside(m.size, m.chunkSize, TotalChunks(m), k);
    NothingWraps(m.size, m.chunkSize, k * m.chunkSize);
  }

  /** Up to the last chunk, what was received is exactly min(next * chunk size, size). */
  lemma {:induction false} ReceivedIsPosition(m: Manifest, chunks: seq<Bytes>)
    requires WellFormed(m) && m.size <= SLOT_SIZE && |chunks| <= TotalChunks(m)
    requires forall k :: 0 <= k < |chunks| ==> |chunks[k]| == ExpectedLen(m, k)
    ensures |Flat(chunks)| == Min(|chunks| * m.chunkSize, m.size)
  {
    if chunks != [] {
      ReceivedIsPosition(m, chunks[..|chunks| - 1]);
      ExpectedInside(m, |chunks| - 1);
    }
  }

  lemma ProgressCounter(dl: Download)
    requires Consistent(dl) && dl.valid && dl.next <= TotalChunks(dl.manifest)
    ensures dl.received == Min(dl.next * dl.manifest.chunkSize, dl.manifest.size)
    ensures dl.next == TotalChunks(dl.manifest) <==> dl.received == dl.manifest.size
  {
    ReceivedIsPosition(dl.manifest, dl.accepted);
    TotalIsCeiling(dl.manifest);
    var last := if dl.next < TotalChunks(dl.manifest) then TotalChunks(dl.manifest) - 1 else dl.next;
    MulLe(dl.next, last, dl.manifest.chunkSize);
  }

  /**
   * Past the last chunk the subtraction vanishes or wraps, and one more chunk is still accepted: the
   * one numbered like the count itself, empty for a whole number of chunks and full otherwise.
   */
  lemma SurplusChunkAccepted(dl: Download, d: Delivery, io: Io)
    requires Consistent(dl) && dl.hash.Running? && dl.next == TotalChunks(dl.manifest)
    requires d.offset == 0 && d.total == |d.data| && d.index == dl.next && io.write && io.update
    ensures Judge(dl, d, io).Written?
            <==> |d.data| == if dl.manifest.size % dl.manifest.chunkSize == 0 then 0 else dl.manifest.chunkSize
  {
    SurplusLen(dl.manifest);
  }

  lemma SurplusLen(m: Manifest)
    requires WellFormed(m) && m.size <= SLOT_SIZE
    ensures ExpectedLen(m, TotalChunks(m)) == if m.size % m.chunkSize == 0 then 0 else m.chunkSize
  {
    TotalIsCeiling(m);
    var p := TotalChunks(m) * m.chunkSize;
    MultipleInReach(m.size, m.chunkSize, TotalChunks(m));
    assert Wrap32(p) == p;
    assert p != m.size ==> Wrap32(m.size - p) == 0x1_0000_0000 + m.size - p;
  }

  lemma MultipleInReach(a: nat, c: nat, n: nat)
    requires c > 0 && a <= n * c < a + c
    ensures n * c == a <==> a % c == 0
  {
    var q := a / c;
    DivisionBounds(a, c);
    assert a == q * c + a % c;
    if n * c == a {
      if q < n {
        MulLe(q + 1, n, c);
        MulPred(q + 1, c);
      } else {
        MulLe(n, q, c);
      }
    } else if a % c == 0 {
      if q < n {
        MulLe(q + 1, n, c);
        MulPred(q + 1, c);
      } else {
        MulLe(n, q, c);
      }
    }
  }

  /** A broker that only delivers chunks of this image cannot cause a surplus. */
  lemma {:induction false} NoSurplusFromSubscribed(dl: Download, ds: seq<(Delivery, Io)>)
    requires Consistent(dl) && dl.valid && dl.next <= TotalChunks(dl.manifest)
    requires forall d :: d in ds ==> d.0.index < TotalChunks(dl.manifest)
    ensures Deliveries(dl, ds).next <= TotalChunks(dl.manifest)
  {
    if ds != [] {
      NoSurplusFromSubscribed(dl, ds[..|ds| - 1]);
      DeliveriesKeep(dl, ds[..|ds| - 1]);
      assert ds[|ds| - 1] in ds;
    }
  }

  // ---- the boot flip ---------------------------------------------------------------------------

  /**
   * The boot partition is only ever pointed at flash contents that have the manifest's SHA-256 and
   * are exactly the accepted chunks; they number the manifest's size unless a surplus was accepted.
   */
  lemma FlipIsVerified(dl: Download, m: Manifest, sha256: Hash, io: Io)
    requires Consistent(dl) && SameImage(m, dl.manifest) && FinishOk(dl, m, sha256, io)
    ensures sha256(dl.flash) == m.sha && dl.flash == Flat(dl.accepted)
    ensures m.chunkSize > 0
    ensures dl.next == TotalChunks(m) ==> |dl.flash| == m.size
  {
    if dl.next == TotalChunks(dl.manifest) {
      ProgressCounter(dl);
    }
  }

  /** A download whose hash once failed to take a chunk is never flipped, whatever arrives later. */
  lemma BrokenNeverFlips(dl: Download, m: Manifest, sha256: Hash, io: Io, ds: seq<(Delivery, Io)>)
    requires Consistent(dl) && dl.hash.Broken?
    ensures !FinishOk(Deliveries(dl, ds), m, sha256, io)
  {
    DeliveriesKeep(dl, ds);
  }

  // ---- an honest broker -----------------------------------------------------------------------

  /** The accepted chunks are the stager's slices, as far as they go. */
  ghost predicate Served(dl: Download, slices: seq<Bytes>) {
    dl.accepted <= slices
  }

  /** A chunk message as the stager's retained copy arrives. */
  function Slice(slices: seq<Bytes>, k: nat): (d: Delivery)
    requires k < |slices|
  {
    Delivery(k, slices[k], 0, |slices[k]|)
  }

  /** If every delivery is one of the slices under its own number, so is everything accepted. */
  lemma {:induction false} HonestDeliveriesServe(dl: Download, slices: seq<Bytes>, ds: seq<(Delivery, Io)>)
    requires Consistent(dl) && Served(dl, slices)
    requires forall d :: d in ds ==> d.0.index < |slices| && d.0 == Slice(slices, d.0.index)
    ensures Served(Deliveries(dl, ds), slices)
  {
    if ds != [] {
      var before, d := ds[..|ds| - 1], ds[|ds| - 1];
      HonestDeliveriesServe(dl, slices, before);
      DeliveriesKeep(dl, before);
      assert d in ds;
    }
  }

  const ALL_WELL: Io := Io(true, true, true, true, true, true, true)

  ghost predicate SlicesFit(m: Manifest, slices: seq<Bytes>) {
    forall k :: 0 <= k < |slices| ==> |slices[k]| == ExpectedLen(m, k)
  }
}
