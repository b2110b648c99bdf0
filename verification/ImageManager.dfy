/**
 The cache manager as it works on disk, statement by statement: each method is proved to
 compute its step of `ImageModel`.  A download goes to a temporary file that only a rename
 makes visible, so it is held in a local variable here.
*/
module ImageManager {
  import opened Common
  import opened ImageModel

  class Manager {
    const hash: Hash
    var files: map<Artifact, File>
    var meta: map<Slot, Metadata>
    var overlays: map<OverlayId, Option<Artifact>>
    ghost var promotions: seq<Promotion>

    ghost function State(): Store
      reads this
    {
      Store(files, meta, overlays, promotions)
    }

    constructor (hash: Hash)
      ensures this.hash == hash && State() == Store(map[], map[], map[], [])
    {
      this.hash := hash;
      files, meta, overlays, promotions := map[], map[], map[], [];
    }

    method Current(slot: Slot) returns (r: Option<Artifact>)
      ensures r == CurrentBlob(State(), slot)
    {
      if slot !in meta {
        return None;
      }
      var blob := Blob(slot, meta[slot].current);
      if blob in files { r := Some(blob); } else { r := None; }
    }

    /** The history entries that are not about `ref`, in order. */
    static method EntriesWithout(history: seq<HistoryEntry>, ref: DigestRef) returns (kept: seq<HistoryEntry>)
      ensures kept == Without(history, ref)
    {
      kept := [];
      for i := 0 to |history|
        invariant kept == Without(history[..i], ref)
      {
        assert history[..i + 1][..i] == history[..i];
        if history[i].ref != ref {
          kept := kept + [history[i]];
        }
      }
      assert history[..|history|] == history;
    }

    method SetCurrentPointer(slot: Slot, policy: Policy, expected: Expected, now: Time)
      modifies this`meta, this`promotions
      ensures State() == SetCurrent(old(State()), slot, policy, expected, now)
    {
      var history := if slot in meta then meta[slot].history else [];
      var e := HistoryEntry(expected.ref, now);
      var kept := EntriesWithout(history, expected.ref);
      kept := [e] + kept;
      kept := if |kept| > 10 then kept[..10] else kept;
      meta := meta[slot := Metadata(policy, expected.ref, now, expected.signed, kept)];
      promotions := promotions + [Promotion(slot, e)];
    }

    method Download(slot: Slot, policy: Policy, expected: Option<Expected>, up: Upstream)
      returns (r: Result<Artifact, ImageError>)
      modifies this`files, this`meta, this`promotions
      ensures (State(), r) == DownloadToBlob(old(State()), hash, slot, policy, expected, up)
    {
      if up.download.DownloadFailed? {
        return Err(FetchFailed);
      }
      var tmp := File(up.download.bytes, up.now);
      var algorithm := if expected.Some? then expected.value.ref.algorithm else Sha256;
      var actual := hash(algorithm, tmp.bytes);
      if expected.Some? && expected.value.ref.digest != actual {
        return Err(DigestMismatch);
      }
      var blob := Blob(slot, DigestRef(algorithm, actual));
      files := files[blob := tmp];
      var resolved := if expected.Some? then expected.value else Expected(DigestRef(algorithm, actual), false);
      SetCurrentPointer(slot, policy, resolved, up.now);
      r := Ok(blob);
    }

    method EnsureArtifact(slot: Slot, entry: CatalogEntry, force: bool, up: Upstream)
      returns (r: Result<Artifact, ImageError>)
      modifies this`files, this`meta, this`promotions
      ensures (State(), r) == Ensure(old(State()), hash, slot, entry, force, up)
    {
      if !up.urlAllowed {
        return Err(UrlRejected);
      }
      var policy := RefreshPolicy(entry);
      if policy.Err? {
        return Err(policy.error);
      }
      if policy.value.Manual? && !force {
        var current := Current(slot);
        if current.Some? {
          return Ok(current.value);
        }
      }
      var expected := ExpectedDigest(entry, up.manifest);
      if expected.Err? {
        var fallback := Current(slot);
        if fallback.Some? && !force && expected.error.ManifestUnavailable? {
          return Ok(fallback.value);
        }
        return Err(expected.error);
      }
      if expected.value.Some? {
        var blob := Blob(slot, expected.value.value.ref);
        if blob in files {
          SetCurrentPointer(slot, policy.value, expected.value.value, up.now);
          return Ok(blob);
        }
        r := Download(slot, policy.value, expected.value, up);
        return;
      }
      if policy.value.Pinned? {
        return Err(NothingToPin);
      }
      var current := Current(slot);
      if current.Some? && !force {
        return Ok(current.value);
      }
      r := Download(slot, policy.value, None, up);
    }

    method ProvisionOverlay(id: OverlayId, slot: Slot, entry: CatalogEntry, up: Upstream)
      modifies this
      ensures State() == Provision(old(State()), hash, id, slot, entry, up)
    {
      var r := EnsureArtifact(slot, entry, false, up);
      if r.Ok? && id !in overlays {
        overlays := overlays[id := Some(r.value)];
      }
    }

    // ---------------------------------------------------------------- pruning

    method CollectCurrentBlobs() returns (blobs: set<Artifact>)
      ensures blobs == CurrentBlobs(State())
    {
      blobs := {};
      var left := meta.Keys;
      while left != {}
        invariant left <= meta.Keys
        invariant blobs == set slot | slot in meta.Keys - left && Blob(slot, meta[slot].current) in files ::
                             Blob(slot, meta[slot].current)
        decreases left
      {
        var slot :| slot in left;
        var blob := Current(slot);
        left := left - {slot};
        if blob.Some? {
          blobs := blobs + {blob.value};
        }
      }
    }

    method CollectBackingFiles(probe: Probe) returns (inUse: set<Artifact>, known: bool)
      ensures (inUse, known) == BackingFiles(overlays, probe)
    {
      inUse, known := {}, true;
      var left := overlays.Keys;
      while left != {}
        invariant left <= overlays.Keys
        invariant probe.ToolMissing? ==> left == overlays.Keys && inUse == {} && known
        invariant probe.Asked? ==>
                    && inUse == BackingOf(overlays, overlays.Keys - left - probe.unreadable)
                    && known == ((overlays.Keys - left) !! probe.unreadable)
        decreases left
      {
        var id :| id in left;
        if probe.ToolMissing? {
          return {}, false;
        }
        left := left - {id};
        if id in probe.unreadable {
          known := false;
        } else if overlays[id].Some? {
          inUse := inUse + {overlays[id].value};
        }
      }
      assert overlays.Keys - left == overlays.Keys;
      assert probe.ToolMissing? ==> overlays == map[];
    }

    /** `order` is the order the cache directories list their artifacts in. */
    method PruneCache(q: PruneRequest, order: seq<Artifact>, dryRun: bool) returns (report: Report)
      requires IsListing(State(), order)
      modifies this`files
      ensures (State(), report) == Prune(old(State()), q, order, dryRun)
    {
      hide Artifacts, CurrentBlobs, BackingFiles;
      ghost var s := State();
      NoArtifacts();
      var protected := CollectCurrentBlobs();
      var inUse, known := CollectBackingFiles(q.probe);
      protected := protected + inUse;
      var cutoff := q.now - if q.olderThan > 0 then q.olderThan else 0;
      var removed: seq<Removed> := [];
      var freed := 0;
      for k := 0 to |order|
        invariant removed == ToRemove(s, q, order[..k]) && freed == TotalSize(removed)
        invariant files == if dryRun then s.files else s.files - Artifacts(removed)
        invariant forall i :: k <= i < |order| ==> order[i] !in Artifacts(removed)
      {
        var a := order[k];
        assert order[..k + 1][..k] == order[..k];
        if a in protected || (!known && a.Blob?) || files[a].mtime > cutoff {
          assert !Prunable(s, q, a);
          continue;
        }
        assert Prunable(s, q, a);
        var size := |files[a].bytes.octets|;
        ghost var before := removed;
        removed := removed + [Removed(a, size)];
        freed := freed + size;
        assert removed[..|removed| - 1] == before;
        OneMoreArtifact(before, Removed(a, size));
        if !dryRun {
          files := files - {a};
        }
      }
      assert order[..|order|] == order;
      report := Report(dryRun, removed, freed, known);
    }

    static lemma NoArtifacts()
      ensures Artifacts([]) == {}
    {
    }

    static lemma OneMoreArtifact(removed: seq<Removed>, r: Removed)
      ensures Artifacts(removed + [r]) == Artifacts(removed) + {r.artifact}
    {
      var all := removed + [r];
      assert all[|removed|] == r;
      forall a ensures a in Artifacts(all) <==> a in Artifacts(removed) + {r.artifact} {
        if a in Artifacts(removed) {
          var i :| 0 <= i < |removed| && removed[i].artifact == a;
          assert all[i].artifact == a;
        }
      }
    }
  }
}
