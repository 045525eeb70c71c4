/**
 * tools/ota_push.py: how an image is cut into retained chunk messages, and the order in which they and
 * the manifest are put on the broker.
 */
module OtaStager {
  import opened Words
  import opened OtaDownload
  import OtaUpdater

  // ---- slicing -------------------------------------------------------------------------------

  /** The slices of `image` from offset `i` on. */
  function SlicesFrom(image: Bytes, chunkSize: nat, i: nat): (chunks: seq<Bytes>)
    requires chunkSize > 0
    decreases |image| - i
  {
    if |image| <= i then []
    else [image[i..Min(i + chunkSize, |image|)]] + SlicesFrom(image, chunkSize, i + chunkSize)
  }

  function Slices(image: Bytes, chunkSize: nat): (chunks: seq<Bytes>)
    requires chunkSize > 0
  {
    SlicesFrom(image, chunkSize, 0)
  }

  lemma MulStep(k: nat, c: nat)
    ensures (k + 1) * c == k * c + c
  {
  }

  lemma MulMonotone(a: nat, b: nat, c: nat)
    requires a <= b
    ensures a * c <= b * c
  {
  }

  /** There are as many slices as it takes to reach the end, and slice `k` starts `k` chunk sizes further on. */
  lemma {:induction false} SliceAt(image: Bytes, chunkSize: nat, i: nat, k: nat)
    requires chunkSize > 0
    ensures var n := |SlicesFrom(image, chunkSize, i)|;
            |image| <= i + n * chunkSize && (n > 0 ==> i + (n - 1) * chunkSize < |image|)
    ensures i + k * chunkSize < |image| <==> k < |SlicesFrom(image, chunkSize, i)|
    ensures k < |SlicesFrom(image, chunkSize, i)|
            ==> SlicesFrom(image, chunkSize, i)[k] == image[i + k * chunkSize..Min(i + (k + 1) * chunkSize, |image|)]
    decreases |image| - i
  {
    if i < |image| {
      var rest := SlicesFrom(image, chunkSize, i + chunkSize);
      if k > 0 {
        SliceAt(image, chunkSize, i + chunkSize, k - 1);
        MulStep(k - 1, chunkSize);
        MulStep(k, chunkSize);
      } else {
        SliceAt(image, chunkSize, i + chunkSize, 0);
      }
      MulStep(|rest|, chunkSize);
      if |rest| > 0 {
        MulStep(|rest| - 1, chunkSize);
      }
    } else {
      MulMonotone(0, k, chunkSize);
    }
  }

  /** Two multiples of the chunk size that round the same size up are the same multiple. */
  lemma CeilingUnique(size: nat, c: nat, a: nat, b: nat)
    requires c > 0 && a > 0 && b > 0
    requires (a - 1) * c < size <= a * c && (b - 1) * c < size <= b * c
    ensures a == b
  {
    if a < b {
      MulMonotone(a, b - 1, c);
    } else if b < a {
      MulMonotone(b, a - 1, c);
    }
  }

  /** What the stager writes into the manifest, as the device takes it in. */
  function ManifestOf(image: Bytes, chunkSize: nat, version: string, force: bool, sha256: Hash): (m: Manifest)
    requires |image| <= SLOT_SIZE && chunkSize <= OTA_MAX_CHUNK_SIZE
  {
    Manifest(version, |image|, chunkSize, sha256(image), force, true, true)
  }

  /** An image the documentation lets the stager stage. */
  ghost predicate Stageable(image: Bytes, chunkSize: nat) {
    0 < |image| <= SLOT_SIZE && 0 < chunkSize <= OTA_MAX_CHUNK_SIZE
  }

  /** The chunks staged are as many as the device computes, and each is as long as it expects. */
  lemma SlicesMatchManifest(image: Bytes, chunkSize: nat, m: Manifest)
    requires Stageable(image, chunkSize) && m.valid && m.size == |image| && m.chunkSize == chunkSize
    ensures |Slices(image, chunkSize)| == TotalChunks(m)
    ensures SlicesFit(m, Slices(image, chunkSize))
  {
    var chunks := Slices(image, chunkSize);
    SliceAt(image, chunkSize, 0, 0);
    TotalIsCeiling(m);
    CeilingUnique(|image|, chunkSize, |chunks|, TotalChunks(m));
    forall k | 0 <= k < |chunks|
      ensures |chunks[k]| == ExpectedLen(m, k)
    {
      SliceAt(image, chunkSize, 0, k);
      ExpectedInside(m, k);
    }
  }

  lemma {:induction false} SlicesReassemble(image: Bytes, chunkSize: nat, n: nat)
    requires chunkSize > 0 && n <= |Slices(image, chunkSize)|
    ensures Flat(Slices(image, chunkSize)[..n]) == image[..Min(n * chunkSize, |image|)]
  {
    var chunks := Slices(image, chunkSize);
    if n > 0 {
      SlicesReassemble(image, chunkSize, n - 1);
      SliceAt(image, chunkSize, 0, n - 1);
      assert chunks[..n] == chunks[..n - 1] + [chunks[n - 1]];
      FlatSnoc(chunks[..n - 1], chunks[n - 1]);
      MulStep(n - 1, chunkSize);
    }
  }

  /** Cutting an image up and putting the chunks back together in order gives the image back. */
  lemma FlatOfSlices(image: Bytes, chunkSize: nat)
    requires chunkSize > 0
    ensures Flat(Slices(image, chunkSize)) == image
  {
    var chunks := Slices(image, chunkSize);
    SliceAt(image, chunkSize, 0, 0);
    SlicesReassemble(image, chunkSize, |chunks|);
    assert chunks[..|chunks|] == chunks;
    assert image[..|image|] == image;
  }

  /**
   * End to end: served the slices of an image, in whatever deliveries and over however many broken
   * sessions, a download that got all of them holds the image, and it verifies.
   */
  lemma StagedImageFlips(image: Bytes, chunkSize: nat, version: string, force: bool, sha256: Hash, dl: Download)
    requires Stageable(image, chunkSize) && Consistent(dl) && dl.hash.Running?
    requires dl.manifest == ManifestOf(image, chunkSize, version, force, sha256)
    requires Served(dl, Slices(image, chunkSize)) && dl.next == TotalChunks(dl.manifest)
    ensures dl.flash == image
    ensures FinishOk(dl, dl.manifest, sha256, ALL_WELL)
  {
    SlicesMatchManifest(image, chunkSize, dl.manifest);
    FlatOfSlices(image, chunkSize);
    assert dl.accepted == Slices(image, chunkSize);
  }

  /**
   * A session on a staged image, from whatever earlier sessions left of it, over a link that delivers
   * the retained slices late, repeatedly or not at all and flash and hash calls that may fail: if it
   * reboots, it boots the image. If nothing fails and each subscription is answered, it does reboot.
   */
  method StagedSession(u: OtaUpdater.Updater, image: Bytes, chunkSize: nat, version: string, force: bool,
                       battery: Option<real>, found: bool, io: Io)
    returns (outcome: OtaUpdater.Outcome)
    requires u.Valid() && !u.sessionActive && u.eventTask.Idle? && u.subscribed == []
    requires Stageable(image, chunkSize) && u.manifest == ManifestOf(image, chunkSize, version, force, u.sha256)
    requires !u.broker.Adversarial? && u.broker.slices == Slices(image, chunkSize)
    modifies u
    ensures u.Valid() && u.SubscribedInside() && !u.sessionActive
    ensures outcome.Rebooted? ==> u.boot == Some(image)
    ensures !outcome.Rebooted? ==> u.boot == old(u.boot)
    ensures u.broker.Prompt? && found && io == ALL_WELL && !outcome.Deferred?
            && (old(u.partialValid && SameImage(u.manifest, u.partialManifest)) ==> old(u.hashOp).Running?)
            ==> outcome.Rebooted?
  {
    SlicesMatchManifest(image, chunkSize, u.manifest);
    FlatOfSlices(image, chunkSize);
    assert u.broker.Holds(u.manifest);
    var finalised;
    outcome, finalised := u.RunSession(battery, found, io);
  }

  // ---- the retained store ----------------------------------------------------------------------

  /** The retained staging messages of one device. */
  datatype Retained = Retained(chunks: map<nat, Bytes>, manifest: Option<Manifest>, install: bool)

  function Gather(chunks: map<nat, Bytes>, n: nat): (s: seq<Bytes>)
    requires forall k :: 0 <= k < n ==> k in chunks
    ensures |s| == n && forall k :: 0 <= k < n ==> s[k] == chunks[k]
  {
    seq(n, k requires 0 <= k < n => chunks[k])
  }

  ghost predicate Holds(chunks: map<nat, Bytes>, n: nat) {
    forall k :: 0 <= k < n ==> k in chunks
  }

  /** A device that sees the manifest of this store finds every chunk of the image it describes. */
  ghost predicate Complete(r: Retained, sha256: Hash) {
    r.manifest.Some? ==>
      var m := r.manifest.value;
      WellFormed(m) && Holds(r.chunks, TotalChunks(m))
      && SlicesFit(m, Gather(r.chunks, TotalChunks(m)))
      && sha256(Flat(Gather(r.chunks, TotalChunks(m)))) == m.sha
  }

  /** Completeness only depends on the manifest and the chunks it counts. */
  lemma SameBelow(r: Retained, t: Retained, sha256: Hash)
    requires Complete(r, sha256) && r.manifest == t.manifest
    requires r.manifest.Some? && WellFormed(r.manifest.value)
             ==> forall k :: 0 <= k < TotalChunks(r.manifest.value)
                             ==> k in r.chunks ==> k in t.chunks && t.chunks[k] == r.chunks[k]
    ensures Complete(t, sha256)
  {
    if r.manifest.Some? {
      var n := TotalChunks(r.manifest.value);
      forall k | 0 <= k < n
        ensures k in t.chunks
      {
        assert k in r.chunks;
      }
      assert Gather(r.chunks, n) == Gather(t.chunks, n);
    }
  }

  /** Every store from index `from` on is complete. */
  ghost predicate AllComplete(seen: seq<Retained>, from: nat, sha256: Hash) {
    forall i :: from <= i < |seen| ==> Complete(seen[i], sha256)
  }

  lemma CompleteAppended(seen: seq<Retained>, r: Retained, from: nat, sha256: Hash)
    requires Complete(r, sha256) && from <= |seen|
    ensures AllComplete(seen + [r], from, sha256) <==> AllComplete(seen, from, sha256)
  {
    if AllComplete(seen + [r], from, sha256) {
      assert forall i :: from <= i < |seen| ==> (seen + [r])[i] == seen[i];
    }
  }

  class Broker {
    var chunks: map<nat, Bytes>
    var manifest: Option<Manifest>
    var install: bool
    /** Every store a device could have found, oldest first. */
    ghost var seen: seq<Retained>

    ghost function Now(): (r: Retained)
      reads this
    {
      Retained(chunks, manifest, install)
    }

    constructor ()
      ensures chunks == map[] && manifest.None? && !install && seen == [Now()]
    {
      chunks, manifest, install := map[], None, false;
      seen := [Retained(map[], None, false)];
    }

    method PublishChunk(k: nat, data: Bytes)
      modifies this`chunks, this`seen
      ensures chunks == old(chunks)[k := data] && seen == old(seen) + [Now()]
    {
      chunks := chunks[k := data];
      seen := seen + [Now()];
    }

    method DeleteChunk(k: nat)
      modifies this`chunks, this`seen
      ensures chunks == old(chunks) - {k} && seen == old(seen) + [Now()]
    {
      chunks := chunks - {k};
      seen := seen + [Now()];
    }

    method SetManifest(m: Option<Manifest>)
      modifies this`manifest, this`seen
      ensures manifest == m && seen == old(seen) + [Now()]
    {
      manifest := m;
      seen := seen + [Now()];
    }

    method SetInstall()
      modifies this`install, this`seen
      ensures install && seen == old(seen) + [Now()]
    {
      install := true;
      seen := seen + [Now()];
    }

    /** Deletes the chunks numbered `keep` and up. In the sorted order of the topics they precede the manifest. */
    method ClearChunks(keep: nat)
      modifies this`chunks, this`seen
      ensures forall k: nat :: k in chunks <==> k in old(chunks) && k < keep
      ensures forall k :: k in chunks ==> chunks[k] == old(chunks)[k]
      ensures |old(seen)| <= |seen| && seen[..|old(seen)|] == old(seen)
      ensures forall i :: |old(seen)| <= i < |seen| ==>
                seen[i].manifest == manifest
                && forall k :: 0 <= k < keep && k in old(chunks)
                               ==> k in seen[i].chunks && seen[i].chunks[k] == old(chunks)[k]
      ensures (exists k: nat :: k in old(chunks) && keep <= k) ==> |old(seen)| < |seen| && seen[|seen| - 1] == Now()
    {
      var stale := set k | k in chunks && keep <= k;
      ghost var all := stale;
      while stale != {}
        invariant forall k: nat :: k in stale <==> k in chunks && keep <= k
        invariant forall k :: k in chunks ==> k in old(chunks) && chunks[k] == old(chunks)[k]
        invariant forall k :: k in old(chunks) && k < keep ==> k in chunks
        invariant |old(seen)| <= |seen| && seen[..|old(seen)|] == old(seen)
        invariant forall i :: |old(seen)| <= i < |seen| ==>
                    seen[i].manifest == manifest
                    && forall k :: 0 <= k < keep && k in old(chunks)
                                   ==> k in seen[i].chunks && seen[i].chunks[k] == old(chunks)[k]
        invariant (stale == all && chunks == old(chunks)) || (|old(seen)| < |seen| && seen[|seen| - 1] == Now())
        decreases stale
      {
        var k :| k in stale;
        DeleteChunk(k);
        stale := stale - {k};
      }
    }

    /** Publishes the chunks in order; no manifest is retained meanwhile. */
    method PublishChunks(slices: seq<Bytes>)
      requires manifest.None? && forall k :: k in chunks ==> k < |slices|
      modifies this`chunks, this`seen
      ensures Holds(chunks, |slices|) && forall k: nat :: k in chunks <==> k < |slices|
      ensures Gather(chunks, |slices|) == slices
      ensures |old(seen)| <= |seen| && seen[..|old(seen)|] == old(seen)
      ensures forall i :: |old(seen)| <= i < |seen| ==> seen[i].manifest.None?
    {
      for n := 0 to |slices|
        invariant forall k :: 0 <= k < n ==> k in chunks && chunks[k] == slices[k]
        invariant forall k :: k in chunks ==> k < |slices|
        invariant |old(seen)| <= |seen| && seen[..|old(seen)|] == old(seen)
        invariant forall i :: |old(seen)| <= i < |seen| ==> seen[i].manifest.None?
      {
        PublishChunk(n, slices[n]);
      }
    }

    /** Deletes what the new staging does not keep: first the surplus chunks, then the manifest. */
    method ClearStale(keep: nat, sha256: Hash)
      requires Complete(Now(), sha256)
      modifies this
      ensures manifest.None? && install == old(install) && |old(seen)| <= |seen|
      ensures forall k: nat :: k in chunks ==> k < keep
      ensures AllComplete(seen, |old(seen)|, sha256)
              <==> old(manifest).None? || TotalChunks(old(manifest).value) <= keep
    {
      ghost var was, from := Now(), |seen|;
      ClearChunks(keep);
      ClearedComplete(was, from, keep, sha256);
      if manifest.Some? {
        CompleteAppended(seen, Now().(manifest := None), from, sha256);
        SetManifest(None);
      }
    }

    /** Publishes an image where no manifest is retained: chunks first, manifest last. */
    method PublishImage(slices: seq<Bytes>, m: Manifest, sha256: Hash)
      requires manifest.None? && forall k: nat :: k in chunks ==> k < |slices|
      requires WellFormed(m) && TotalChunks(m) == |slices| && SlicesFit(m, slices) && sha256(Flat(slices)) == m.sha
      modifies this
      ensures manifest == Some(m) && install == old(install) && Complete(Now(), sha256)
      ensures Holds(chunks, |slices|) && Gather(chunks, |slices|) == slices
      ensures forall k: nat :: k in chunks <==> k < |slices|
      ensures |old(seen)| <= |seen| && seen[..|old(seen)|] == old(seen) && AllComplete(seen, |old(seen)|, sha256)
    {
      PublishChunks(slices);
      SetManifest(Some(m));
    }

    /**
     * Staging an image. At every moment a device that finds a manifest finds all of its chunks, with
     * one exception: while stale chunks are being deleted, when the previous image had more of them.
     */
    method Stage(image: Bytes, chunkSize: nat, version: string, force: bool, alsoInstall: bool, sha256: Hash)
      requires Stageable(image, chunkSize) && Complete(Now(), sha256)
      modifies this
      ensures manifest == Some(ManifestOf(image, chunkSize, version, force, sha256))
      ensures install == (old(install) || alsoInstall)
      ensures Holds(chunks, TotalChunks(manifest.value)) && Complete(Now(), sha256)
      ensures Flat(Gather(chunks, TotalChunks(manifest.value))) == image
      ensures forall k: nat :: k in chunks <==> k < TotalChunks(manifest.value)
      ensures |old(seen)| <= |seen|
      ensures AllComplete(seen, |old(seen)|, sha256)
              <==> old(manifest).None? || TotalChunks(old(manifest).value) <= TotalChunks(manifest.value)
    {
      var slices := Slices(image, chunkSize);
      var m := ManifestOf(image, chunkSize, version, force, sha256);
      SlicesMatchManifest(image, chunkSize, m);
      FlatOfSlices(image, chunkSize);
      ClearStale(|slices|, sha256);
      ghost var cleared := seen;
      PublishImage(slices, m, sha256);
      if alsoInstall {
        SetInstall();
      }
      assert forall i :: 0 <= i < |cleared| ==> seen[i] == cleared[i];
    }

    /** The stores seen while stale chunks go: complete throughout exactly if none of them was the old image's. */
    ghost method ClearedComplete(was: Retained, from: nat, keep: nat, sha256: Hash)
      requires Complete(was, sha256) && manifest == was.manifest && from <= |seen|
      requires forall k: nat :: k in chunks <==> k in was.chunks && k < keep
      requires forall i :: from <= i < |seen| ==>
                 seen[i].manifest == was.manifest
                 && forall k :: 0 <= k < keep && k in was.chunks
                                ==> k in seen[i].chunks && seen[i].chunks[k] == was.chunks[k]
      requires (exists k: nat :: k in was.chunks && keep <= k) ==> from < |seen| && seen[|seen| - 1] == Now()
      ensures AllComplete(seen, from, sha256) <==> was.manifest.None? || TotalChunks(was.manifest.value) <= keep
    {
      if was.manifest.Some? && keep < TotalChunks(was.manifest.value) {
        assert keep in was.chunks;
        assert !Holds(chunks, TotalChunks(was.manifest.value));
      } else {
        forall i | from <= i < |seen|
          ensures Complete(seen[i], sha256)
        {
          SameBelow(was, seen[i], sha256);
        }
      }
    }
  }
}
