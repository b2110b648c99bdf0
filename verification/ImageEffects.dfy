/**
 What the answers of the image cache are in terms of the catalog entry's own fields, what the
 network delivered and which files are there; and which files a prune takes.
*/
module ImageEffects {
  import opened Common
  import opened ImageModel
  import opened ImageSafety

  /** The metadata of `slot` points to `ref`, and its blob is on disk. */
  predicate Cached(s: Store, slot: Slot, ref: DigestRef) {
    slot in s.meta && s.meta[slot].current == ref && Blob(slot, ref) in s.files
  }

  /** A template kept by hand, with something to serve and no forced refresh. */
  ghost predicate KeptByHand(s: Store, slot: Slot, entry: CatalogEntry, force: bool) {
    entry.policyField == Set(Manual) && !force && exists ref :: Cached(s, slot, ref)
  }

  /** The digest to fetch, from the pin in the catalog or else from the manifest. */
  ghost predicate AsksFor(entry: CatalogEntry, up: Upstream, ref: DigestRef) {
    || (exists d :: entry.pin == Some(d) && ref == DigestRef(Sha256, d))
    || (entry.pin == None && exists signed :: up.manifest == Listed(Expected(ref, signed)))
  }

  // ------------------------------------------------------------------ one answer per case

  /** A bad URL and a policy nobody knows are refused before anything else is looked at. */
  lemma RefusedAtOnce(s: Store, hash: Hash, slot: Slot, entry: CatalogEntry, force: bool, up: Upstream)
    ensures !up.urlAllowed ==> Ensure(s, hash, slot, entry, force, up) == (s, Err(UrlRejected))
    ensures up.urlAllowed && entry.policyField == Unrecognised ==>
              Ensure(s, hash, slot, entry, force, up) == (s, Err(InvalidPolicy))
  {
  }

  /** A manual template is served from the cache whatever upstream would say. */
  lemma ManualServesItsCache(s: Store, hash: Hash, slot: Slot, entry: CatalogEntry, up: Upstream, ref: DigestRef)
    requires up.urlAllowed && entry.policyField == Set(Manual) && Cached(s, slot, ref)
    ensures Ensure(s, hash, slot, entry, false, up) == (s, Ok(Blob(slot, ref)))
  {
  }

  /** With a digest to ask for, exactly that digest is served: from disk, or freshly downloaded. */
  lemma AskedDigestIsServed(s: Store, hash: Hash, slot: Slot, entry: CatalogEntry, force: bool, up: Upstream,
                            ref: DigestRef)
    requires up.urlAllowed && entry.policyField != Unrecognised && !KeptByHand(s, slot, entry, force)
    requires AsksFor(entry, up, ref)
    ensures var (s', r) := Ensure(s, hash, slot, entry, force, up);
            var blob := Blob(slot, ref);
            if blob in s.files then
              r == Ok(blob) && Cached(s', slot, ref) && s'.files == s.files
            else
              match up.download
              case DownloadFailed => s' == s && r == Err(FetchFailed)
              case Received(bytes) =>
                if hash(ref.algorithm, bytes) == ref.digest then
                  r == Ok(blob) && Cached(s', slot, ref) && s'.files == s.files[blob := File(bytes, up.now)]
                else s' == s && r == Err(DigestMismatch)
  {
    assert CurrentBlob(s, slot).Some? ==> Cached(s, slot, s.meta[slot].current);
  }

  /** A pin is final: what the manifest says plays no part. */
  lemma PinIgnoresTheManifest(s: Store, hash: Hash, slot: Slot, entry: CatalogEntry, force: bool, up: Upstream,
                              other: ManifestOutcome)
    requires entry.pin.Some?
    ensures Ensure(s, hash, slot, entry, force, up) == Ensure(s, hash, slot, entry, force, up.(manifest := other))
  {
  }

  /** Without pin and manifest: pinned is refused, a cached image serves, or what arrives is taken as it is. */
  lemma WithoutAManifest(s: Store, hash: Hash, slot: Slot, entry: CatalogEntry, force: bool, up: Upstream)
    requires up.urlAllowed && entry.policyField != Unrecognised
    requires entry.pin == None && up.manifest == NoManifest
    ensures entry.policyField == Set(Pinned) ==>
              Ensure(s, hash, slot, entry, force, up) == (s, Err(NothingToPin))
    ensures entry.policyField != Set(Pinned) && !force ==>
              forall ref :: Cached(s, slot, ref) ==>
                Ensure(s, hash, slot, entry, force, up) == (s, Ok(Blob(slot, ref)))
    ensures entry.policyField != Set(Pinned) && (force || forall ref :: !Cached(s, slot, ref)) ==>
              var (s', r) := Ensure(s, hash, slot, entry, force, up);
              match up.download
              case DownloadFailed => s' == s && r == Err(FetchFailed)
              case Received(bytes) =>
                var ref := DigestRef(Sha256, hash(Sha256, bytes));
                r == Ok(Blob(slot, ref)) && Cached(s', slot, ref)
                && s'.files == s.files[Blob(slot, ref) := File(bytes, up.now)]
  {
    assert CurrentBlob(s, slot).Some? ==> Cached(s, slot, s.meta[slot].current);
  }

  /** An unreachable manifest falls back to the cache unless forced; a rejected one never does. */
  lemma WhenTheManifestFails(s: Store, hash: Hash, slot: Slot, entry: CatalogEntry, force: bool, up: Upstream)
    requires up.urlAllowed && entry.policyField != Unrecognised && !KeptByHand(s, slot, entry, force)
    requires entry.pin == None
    ensures up.manifest == HardFailure ==> Ensure(s, hash, slot, entry, force, up) == (s, Err(ManifestRejected))
    ensures up.manifest == TransientFailure && !force ==>
              forall ref :: Cached(s, slot, ref) ==>
                Ensure(s, hash, slot, entry, force, up) == (s, Ok(Blob(slot, ref)))
    ensures up.manifest == TransientFailure && (force || forall ref :: !Cached(s, slot, ref)) ==>
              Ensure(s, hash, slot, entry, force, up) == (s, Err(ManifestUnavailable))
  {
    assert CurrentBlob(s, slot).Some? ==> Cached(s, slot, s.meta[slot].current);
  }

  /** An explicit policy is recorded even beside a pin; without one a pin means pinned, and else latest. */
  lemma WhatIsRecorded(s: Store, hash: Hash, slot: Slot, entry: CatalogEntry, force: bool, up: Upstream)
    ensures var (s', r) := Ensure(s, hash, slot, entry, force, up);
            s' != s ==>
              && r.Ok? && r.value.Blob? && Cached(s', slot, r.value.ref)
              && s'.meta == s.meta[slot := s'.meta[slot]]
              && s'.overlays == s.overlays
              && s'.promotions == s.promotions + [Promotion(slot, HistoryEntry(r.value.ref, up.now))]
              && s'.meta[slot].verifiedAt == up.now
              && (s'.meta[slot].signed <==> entry.pin == None && up.manifest.Listed? && up.manifest.expected.signed)
              && (forall policy :: entry.policyField == Set(policy) ==> s'.meta[slot].policy == policy)
              && (entry.policyField == Unset && entry.pin != None ==> s'.meta[slot].policy == Pinned)
              && (entry.policyField == Unset && entry.pin == None ==> s'.meta[slot].policy == Latest)
  {
  }

  // ------------------------------------------------------------------ overlays

  /** A new overlay stands on the very path the request for its base was answered with. */
  lemma OverlayStandsOnTheAnswer(s: Store, hash: Hash, id: OverlayId, slot: Slot, entry: CatalogEntry, up: Upstream)
    ensures var (cache, r) := Ensure(s, hash, slot, entry, false, up);
            var s' := Provision(s, hash, id, slot, entry, up);
            && s'.files == cache.files && s'.meta == cache.meta && s'.promotions == cache.promotions
            && (r.Ok? && id !in s.overlays ==> s'.overlays == s.overlays[id := Some(r.value)])
            && (r.Err? || id in s.overlays ==> s'.overlays == s.overlays)
  {
    if Ensure(s, hash, slot, entry, false, up).0 != s {
      WhatIsRecorded(s, hash, slot, entry, false, up);
    }
  }

  /** A blank disk stands on nothing, and deleting an overlay forgets it; neither touches the cache. */
  lemma PlainDisks(s: Store, id: OverlayId)
    ensures BlankDisk(s, id) == s.(overlays := BlankDisk(s, id).overlays)
    ensures id !in s.overlays ==> BlankDisk(s, id).overlays == s.overlays[id := None]
    ensures id in s.overlays ==> BlankDisk(s, id) == s
    ensures DeleteOverlay(s, id) == s.(overlays := s.overlays - {id})
  {
  }

  // ------------------------------------------------------------------ pruning

  /** Some overlay that could be read stands on `a`. */
  ghost predicate SeenInUse(s: Store, probe: Probe, a: Artifact) {
    probe.Asked? && exists id :: id in s.overlays && id !in probe.unreadable && s.overlays[id] == Some(a)
  }

  /** Every overlay there is could be read. */
  ghost predicate AllRead(s: Store, probe: Probe) {
    forall id :: id in s.overlays ==> probe.Asked? && id !in probe.unreadable
  }

  /**
   A prune keeps exactly the files that are some template's current blob, are seen under an
   overlay, are digest blobs while some overlay could not be read, or are younger than asked
   for; a negative age counts as none.
  */
  lemma PruneKeepsIff(s: Store, q: PruneRequest, order: seq<Artifact>, a: Artifact)
    requires IsListing(s, order) && a in s.files
    ensures a in Prune(s, q, order, false).0.files <==>
            || (exists slot :: slot in s.meta && a == Blob(slot, s.meta[slot].current))
            || SeenInUse(s, q.probe, a)
            || (a.Blob? && !AllRead(s, q.probe))
            || s.files[a].mtime > q.now || s.files[a].mtime > q.now - q.olderThan
    ensures Prune(s, q, order, false).1.backingKnown <==> AllRead(s, q.probe)
  {
    PruneRemovesExactly(s, q, order, a);
    assert a in CurrentBlobs(s) <==> exists slot :: slot in s.meta && a == Blob(slot, s.meta[slot].current);
    KnownIffAllRead(s, q.probe);
    if q.probe.Asked? {
      assert a in BackingFiles(s.overlays, q.probe).0 <==> SeenInUse(s, q.probe, a);
    }
  }

  lemma KnownIffAllRead(s: Store, probe: Probe)
    ensures BackingFiles(s.overlays, probe).1 <==> AllRead(s, probe)
  {
    if probe.ToolMissing? && s.overlays != map[] {
      var id :| id in s.overlays;
    }
  }

  /** The bytes on disk of the files listed in `order`. */
  ghost function BytesOnDisk(files: map<Artifact, File>, order: seq<Artifact>): nat {
    if order == [] then 0
    else
      var a := order[|order| - 1];
      BytesOnDisk(files, order[..|order| - 1]) + if a in files then |files[a].bytes.octets| else 0
  }

  lemma {:induction false} BytesAreConserved(s: Store, q: PruneRequest, order: seq<Artifact>, n: nat)
    requires IsListing(s, order) && n <= |order|
    ensures var s' := Prune(s, q, order, false).0;
            BytesOnDisk(s.files, order[..n])
            == BytesOnDisk(s'.files, order[..n]) + TotalSize(ToRemove(s, q, order[..n]))
  {
    if n == 0 {
    } else {
      var a := order[n - 1];
      assert order[..n][..n - 1] == order[..n - 1];
      BytesAreConserved(s, q, order, n - 1);
      PruneRemovesExactly(s, q, order, a);
      var before, now := ToRemove(s, q, order[..n - 1]), ToRemove(s, q, order[..n]);
      if Prunable(s, q, a) {
        assert now[..|now| - 1] == before;
      } else {
        assert now == before;
      }
    }
  }

  /** What a prune says it freed is what the disk lost. */
  lemma FreedIsWhatWent(s: Store, q: PruneRequest, order: seq<Artifact>)
    requires IsListing(s, order)
    ensures var (s', report) := Prune(s, q, order, false);
            BytesOnDisk(s.files, order) == BytesOnDisk(s'.files, order) + report.freed
  {
    BytesAreConserved(s, q, order, |order|);
    assert order[..|order|] == order;
  }

  // ------------------------------------------------------------------ runs

  /** A run takes its steps one after the other, each from where the last one ended. */
  lemma {:induction false} RunsTakeEveryStep(s: Store, hash: Hash, steps: seq<Step>, step: Step)
    ensures Run(s, hash, steps + [step]) == Apply(Run(s, hash, steps), hash, step)
  {
    assert (steps + [step])[..|steps|] == steps;
  }
}
