/** What the cache promises in every reachable state, and what each answer it gives means. */
module ImageSafety {
  import opened Common
  import opened ImageModel

  /** Every digest blob holds bytes with the digest in its name. */
  ghost predicate BlobsVerified(s: Store, hash: Hash) {
    forall a :: a in s.files && a.Blob? ==> hash(a.ref.algorithm, s.files[a].bytes) == a.ref.digest
  }

  /** Every metadata pointer names a blob that is there. */
  ghost predicate PointersResolve(s: Store) {
    forall slot :: slot in s.meta ==> Blob(slot, s.meta[slot].current) in s.files
  }

  /** Every overlay on a digest blob still has it. */
  ghost predicate OverlaysBacked(s: Store) {
    forall id :: id in s.overlays && s.overlays[id].Some? && s.overlays[id].value.Blob? ==>
        s.overlays[id].value in s.files
  }

  ghost predicate Inv(s: Store, hash: Hash) {
    BlobsVerified(s, hash) && PointersResolve(s) && OverlaysBacked(s)
  }

  // ------------------------------------------------------------------ ensure

  lemma EnsureKeepsInv(s: Store, hash: Hash, slot: Slot, entry: CatalogEntry, force: bool, up: Upstream)
    requires Inv(s, hash)
    ensures Inv(Ensure(s, hash, slot, entry, force, up).0, hash)
  {
  }

  /** Any failure, of verification or otherwise, leaves files, pointers and overlays as they were. */
  lemma EnsureFailsClosed(s: Store, hash: Hash, slot: Slot, entry: CatalogEntry, force: bool, up: Upstream)
    requires Ensure(s, hash, slot, entry, force, up).1.Err?
    ensures Ensure(s, hash, slot, entry, force, up).0 == s
  {
  }

  /** The digest this request resolved to, from the pin or the manifest. */
  predicate Resolved(entry: CatalogEntry, up: Upstream, ref: DigestRef) {
    if entry.pin.Some? then ref == DigestRef(Sha256, entry.pin.value)
    else up.manifest.Listed? && up.manifest.expected.ref == ref
  }

  predicate Manifestless(entry: CatalogEntry, up: Upstream) {
    entry.pin.None? && up.manifest.NoManifest?
  }

  /** When the previously verified blob may be served although upstream was not consulted or did not answer. */
  predicate MayServeCached(entry: CatalogEntry, force: bool, up: Upstream) {
    && !force
    && (|| RefreshPolicy(entry) == Ok(Manual)
        || (entry.pin.None? && up.manifest.TransientFailure?)
        || (Manifestless(entry, up) && RefreshPolicy(entry) != Ok(Pinned)))
  }

  /**
   What a returned path is: the blob of the digest the pin or the manifest gave; without a
   manifest, the just-downloaded bytes under their own hash; or, unforced, the previously
   verified current blob.  In the first two cases the path is now current; in the
   third nothing changed.
  */
  lemma EnsureAnswers(s: Store, hash: Hash, slot: Slot, entry: CatalogEntry, force: bool, up: Upstream)
    requires Inv(s, hash) && Ensure(s, hash, slot, entry, force, up).1.Ok?
    ensures var (s', r) := Ensure(s, hash, slot, entry, force, up);
            var path := r.value;
            && path in s'.files && path.Blob? && path.slot == slot
            && hash(path.ref.algorithm, s'.files[path].bytes) == path.ref.digest
            && (|| (CurrentBlob(s', slot) == Some(path) && Resolved(entry, up, path.ref))
                || (CurrentBlob(s', slot) == Some(path) && Manifestless(entry, up) && up.download.Received?
                    && s'.files[path].bytes == up.download.bytes && path.ref.algorithm.Sha256?)
                || (s' == s && CurrentBlob(s, slot) == Some(path) && MayServeCached(entry, force, up)))
  {
  }

  /** Exactly when a request is answered rather than refused. */
  lemma EnsureSucceedsIff(s: Store, hash: Hash, slot: Slot, entry: CatalogEntry, force: bool, up: Upstream)
    ensures Ensure(s, hash, slot, entry, force, up).1.Ok? <==>
            && up.urlAllowed
            && !entry.policyField.Unrecognised?
            && (|| (CurrentBlob(s, slot).Some? && MayServeCached(entry, force, up))
                || (exists ref :: Resolved(entry, up, ref)
                      && (|| Blob(slot, ref) in s.files
                          || (up.download.Received? && hash(ref.algorithm, up.download.bytes) == ref.digest)))
                || (Manifestless(entry, up) && RefreshPolicy(entry) != Ok(Pinned) && up.download.Received?))
  {
    if entry.pin.Some? {
      assert Resolved(entry, up, DigestRef(Sha256, entry.pin.value));
    } else if up.manifest.Listed? {
      assert Resolved(entry, up, up.manifest.expected.ref);
    }
  }

  /** A failed download is an error even when a verified blob of an older digest could have been served. */
  lemma DownloadFailureIsNotMasked(s: Store, hash: Hash, slot: Slot, entry: CatalogEntry, force: bool, up: Upstream,
                                   ref: DigestRef)
    requires Resolved(entry, up, ref) && Blob(slot, ref) !in s.files && up.download.DownloadFailed?
    requires RefreshPolicy(entry) != Ok(Manual) || force || CurrentBlob(s, slot).None?
    ensures Ensure(s, hash, slot, entry, force, up).1.Err?
  {
  }

  // ------------------------------------------------------------------ prune

  lemma {:induction false} ToRemoveIs(s: Store, q: PruneRequest, order: seq<Artifact>, a: Artifact)
    ensures a in Artifacts(ToRemove(s, q, order)) <==> a in order && Prunable(s, q, a)
    ensures forall i :: 0 <= i < |ToRemove(s, q, order)| ==>
              ToRemove(s, q, order)[i].artifact in s.files
              && ToRemove(s, q, order)[i].size == Size(s.files[ToRemove(s, q, order)[i].artifact])
  {
    if order == [] {
    } else {
      var before, last := order[..|order| - 1], order[|order| - 1];
      ToRemoveIs(s, q, before, a);
      SplitLast(order);
      var r, r' := ToRemove(s, q, before), ToRemove(s, q, order);
      if Prunable(s, q, last) {
        assert r'[|r|].artifact == last;
      }
      forall i | 0 <= i < |r| ensures r'[i] == r[i] {}
      assert a in Artifacts(r) ==> a in Artifacts(r') by {
        if a in Artifacts(r) {
          var i :| 0 <= i < |r| && r[i].artifact == a;
          assert r'[i].artifact == a;
        }
      }
    }
  }

  /** Digest blobs an overlay uses are never prunable: incomplete information rules all blobs out. */
  lemma UsedBlobsAreNotPrunable(s: Store, q: PruneRequest, id: OverlayId)
    requires id in s.overlays && s.overlays[id].Some? && s.overlays[id].value.Blob?
    ensures !Prunable(s, q, s.overlays[id].value)
  {
    if q.probe.Asked? && id !in q.probe.unreadable {
      assert s.overlays[id].value in BackingFiles(s.overlays, q.probe).0;
    }
  }

  lemma CurrentBlobsAreNotPrunable(s: Store, q: PruneRequest, slot: Slot)
    requires PointersResolve(s) && slot in s.meta
    ensures !Prunable(s, q, Blob(slot, s.meta[slot].current))
  {
    assert Blob(slot, s.meta[slot].current) in CurrentBlobs(s);
  }

  lemma PruneKeepsInv(s: Store, hash: Hash, q: PruneRequest, order: seq<Artifact>, dryRun: bool)
    requires Inv(s, hash)
    ensures Inv(Prune(s, q, order, dryRun).0, hash)
  {
    var s' := Prune(s, q, order, dryRun).0;
    forall slot | slot in s'.meta
      ensures Blob(slot, s'.meta[slot].current) in s'.files
    {
      CurrentBlobsAreNotPrunable(s, q, slot);
      ToRemoveIs(s, q, order, Blob(slot, s.meta[slot].current));
    }
    forall id | id in s'.overlays && s'.overlays[id].Some? && s'.overlays[id].value.Blob?
      ensures s'.overlays[id].value in s'.files
    {
      UsedBlobsAreNotPrunable(s, q, id);
      ToRemoveIs(s, q, order, s.overlays[id].value);
    }
  }

  /** Exactly the prunable artifacts go; everything else keeps its bytes. */
  lemma PruneRemovesExactly(s: Store, q: PruneRequest, order: seq<Artifact>, a: Artifact)
    requires IsListing(s, order)
    ensures var (s', report) := Prune(s, q, order, false);
            && (a in s'.files <==> a in s.files && !Prunable(s, q, a))
            && (a in s'.files ==> s'.files[a] == s.files[a])
            && (a in Artifacts(report.removed) <==> Prunable(s, q, a))
            && s'.meta == s.meta && s'.overlays == s.overlays
  {
    ToRemoveIs(s, q, order, a);
  }

  /** A dry run changes nothing and reports what the real prune reports, byte count included. */
  lemma DryRunForetells(s: Store, q: PruneRequest, order: seq<Artifact>)
    requires IsListing(s, order)
    ensures var (dry, foretold) := Prune(s, q, order, true);
            var (done, report) := Prune(s, q, order, false);
            && dry == s
            && foretold == report.(dryRun := true)
            && done.files == s.files - Artifacts(foretold.removed)
            && report.freed == TotalSize(report.removed)
            && (forall i :: 0 <= i < |report.removed| ==>
                  && report.removed[i].artifact in s.files
                  && report.removed[i].size == Size(s.files[report.removed[i].artifact]))
            && NoDuplicates(report.removed)
  {
    if order != [] {
      ToRemoveIs(s, q, order, order[0]);
    }
    RemovedOnce(s, q, order);
  }

  lemma {:induction false} RemovedOnce(s: Store, q: PruneRequest, order: seq<Artifact>)
    requires NoDuplicates(order)
    ensures NoDuplicates(ToRemove(s, q, order))
  {
    if order == [] {
    } else {
      var before, last := order[..|order| - 1], order[|order| - 1];
      RemovedOnce(s, q, before);
      ToRemoveIs(s, q, before, last);
      var r := ToRemove(s, q, before);
      forall i | 0 <= i < |r| ensures r[i].artifact != last {
        assert r[i].artifact in Artifacts(r);
      }
    }
  }

  /** With the same cutoff and the same backing information a second prune finds nothing. */
  lemma PruneTwice(s: Store, hash: Hash, q: PruneRequest, order: seq<Artifact>, q2: PruneRequest, order2: seq<Artifact>)
    requires Inv(s, hash) && IsListing(s, order)
    requires q2.probe == q.probe && Cutoff(q2) == Cutoff(q)
    requires IsListing(Prune(s, q, order, false).0, order2)
    ensures var s' := Prune(s, q, order, false).0;
            Prune(s', q2, order2, false).1.removed == [] && Prune(s', q2, order2, false).0.files == s'.files
  {
    var s' := Prune(s, q, order, false).0;
    PruneKeepsInv(s, hash, q, order, false);
    forall a ensures !Prunable(s', q2, a) {
      PruneRemovesExactly(s, q, order, a);
      if a in s'.files && a in CurrentBlobs(s) {
        var slot :| slot in s.meta && a == Blob(slot, s.meta[slot].current);
        assert a in CurrentBlobs(s');
      }
    }
    NothingToRemove(s', q2, order2);
  }

  lemma {:induction false} NothingToRemove(s: Store, q: PruneRequest, order: seq<Artifact>)
    requires forall a :: !Prunable(s, q, a)
    ensures ToRemove(s, q, order) == []
  {
    if order == [] {
    } else {
      NothingToRemove(s, q, order[..|order| - 1]);
    }
  }

  // ------------------------------------------------------------------ runs

  lemma StepKeepsInv(s: Store, hash: Hash, step: Step)
    requires Inv(s, hash)
    ensures Inv(Apply(s, hash, step), hash)
  {
    match step
    case EnsureStep(slot, entry, force, up) => EnsureKeepsInv(s, hash, slot, entry, force, up);
    case ProvisionStep(id, slot, entry, up) =>
      EnsureKeepsInv(s, hash, slot, entry, false, up);
      if Ensure(s, hash, slot, entry, false, up).1.Ok? {
        EnsureAnswers(s, hash, slot, entry, false, up);
      }
    case PruneStep(q, order, dryRun) => PruneKeepsInv(s, hash, q, order, dryRun);
    case _ =>
  }

  /** Digests, pointers and overlay bases stay right over any run of any steps. */
  lemma {:induction false} RunKeepsInv(s: Store, hash: Hash, steps: seq<Step>)
    requires Inv(s, hash)
    ensures Inv(Run(s, hash, steps), hash)
  {
    if steps == [] {
    } else {
      RunKeepsInv(s, hash, steps[..|steps| - 1]);
      StepKeepsInv(Run(s, hash, steps[..|steps| - 1]), hash, steps[|steps| - 1]);
    }
  }

  lemma StepKeepsOverlay(s: Store, hash: Hash, step: Step, id: OverlayId)
    requires id in s.overlays && step != DeleteOverlayStep(id)
    ensures id in Apply(s, hash, step).overlays && Apply(s, hash, step).overlays[id] == s.overlays[id]
  {
  }

  lemma {:induction false} RunKeepsOverlay(s: Store, hash: Hash, steps: seq<Step>, id: OverlayId)
    requires id in s.overlays && forall i :: 0 <= i < |steps| ==> steps[i] != DeleteOverlayStep(id)
    ensures id in Run(s, hash, steps).overlays && Run(s, hash, steps).overlays[id] == s.overlays[id]
  {
    if steps == [] {
    } else {
      RunKeepsOverlay(s, hash, steps[..|steps| - 1], id);
      StepKeepsOverlay(Run(s, hash, steps[..|steps| - 1]), hash, steps[|steps| - 1], id);
    }
  }

  /** No two different files have this digest. */
  ghost predicate CollisionFree(hash: Hash, ref: DigestRef) {
    forall x, y :: hash(ref.algorithm, x) == ref.digest && hash(ref.algorithm, y) == ref.digest ==> x == y
  }

  /**
   Until it is deleted, an overlay on a digest blob keeps that blob through every run, with
   bytes that still have the digest in its name: where the digest has no collision, the very
   same bytes.
  */
  lemma {:induction false} OverlaysKeepTheirBase(s: Store, hash: Hash, steps: seq<Step>, id: OverlayId)
    requires Inv(s, hash)
    requires id in s.overlays && s.overlays[id].Some? && s.overlays[id].value.Blob?
    requires forall i :: 0 <= i < |steps| ==> steps[i] != DeleteOverlayStep(id)
    ensures var base := s.overlays[id].value;
            var s' := Run(s, hash, steps);
            && id in s'.overlays && s'.overlays[id] == Some(base)
            && base in s.files && base in s'.files
            && hash(base.ref.algorithm, s'.files[base].bytes) == base.ref.digest
            && (CollisionFree(hash, base.ref) ==> s'.files[base].bytes == s.files[base].bytes)
  {
    hide Run;
    RunKeepsInv(s, hash, steps);
    RunKeepsOverlay(s, hash, steps, id);
  }

  /**
   The looser rule for single-file caches: with an overlay on one of them, pruning keeps the
   file exactly when some overlay on it could be read or the file is too recent.
  */
  lemma LegacyBaseKeptIff(s: Store, q: PruneRequest, order: seq<Artifact>, a: Artifact)
    requires IsListing(s, order) && a in s.files && a.Legacy?
    ensures a in Prune(s, q, order, false).0.files <==>
            || s.files[a].mtime > Cutoff(q)
            || (q.probe.Asked?
                && exists id :: id in s.overlays && id !in q.probe.unreadable && s.overlays[id] == Some(a))
  {
    PruneRemovesExactly(s, q, order, a);
    assert a !in CurrentBlobs(s);
  }
}
