/**
 The digest-addressed cache of base images: what ensuring, provisioning from and pruning the
 cache do to the files on disk, the metadata pointers and the VM overlays.

 The hash is a parameter.  What the network delivers (whether the URL passes, what the
 checksum manifest says, which bytes arrive) is an input of each step, and so is what
 `qemu-img` can tell about the overlays when the cache is pruned.
*/
module ImageModel {
  import opened Common

  type Template(==, !new)
  type Digest(==, !new)
  type OverlayId(==, !new)
  type Time = int

  datatype Bytes = Bytes(octets: seq<bv8>)

  datatype Algorithm = Sha256 | Sha512

  type Hash = (Algorithm, Bytes) -> Digest

  datatype Kind = CloudImage | Iso

  datatype Slot = Slot(template: Template, kind: Kind)

  datatype DigestRef = DigestRef(algorithm: Algorithm, digest: Digest)

  datatype LegacyName = BaseQcow2 | InstallerIso

  /** A blob named after its digest, or a single-file cache from before digest addressing. */
  datatype Artifact = Blob(slot: Slot, ref: DigestRef) | Legacy(slot: Slot, name: LegacyName)

  datatype File = File(bytes: Bytes, mtime: Time)

  datatype HistoryEntry = HistoryEntry(ref: DigestRef, verifiedAt: Time)

  datatype Policy = Pinned | Latest | Manual

  datatype Metadata = Metadata(policy: Policy, current: DigestRef, verifiedAt: Time, signed: bool,
                               history: seq<HistoryEntry>)

  /** A write of the metadata pointer, as an observer of all of them would log it. */
  datatype Promotion = Promotion(slot: Slot, entry: HistoryEntry)

  datatype Store = Store(files: map<Artifact, File>, meta: map<Slot, Metadata>,
                         overlays: map<OverlayId, Option<Artifact>>, promotions: seq<Promotion>)

  // ------------------------------------------------------------------ catalog and upstream

  datatype PolicyField = Unset | Set(policy: Policy) | Unrecognised

  datatype CatalogEntry = CatalogEntry(policyField: PolicyField, pin: Option<Digest>)

  datatype Expected = Expected(ref: DigestRef, signed: bool)

  datatype ManifestOutcome = NoManifest | Listed(expected: Expected) | TransientFailure | HardFailure

  datatype DownloadOutcome = Received(bytes: Bytes) | DownloadFailed

  datatype Upstream = Upstream(urlAllowed: bool, manifest: ManifestOutcome, download: DownloadOutcome, now: Time)

  datatype ImageError = UrlRejected | InvalidPolicy | ManifestUnavailable | ManifestRejected
                      | NothingToPin | FetchFailed | DigestMismatch

  function RefreshPolicy(entry: CatalogEntry): Result<Policy, ImageError> {
    match entry.policyField
    case Set(policy) => Ok(policy)
    case Unrecognised => Err(InvalidPolicy)
    case Unset => Ok(if entry.pin.Some? then Pinned else Latest)
  }

  function ExpectedDigest(entry: CatalogEntry, manifest: ManifestOutcome): Result<Option<Expected>, ImageError> {
    if entry.pin.Some? then Ok(Some(Expected(DigestRef(Sha256, entry.pin.value), false)))
    else
      match manifest
      case NoManifest => Ok(None)
      case Listed(expected) => Ok(Some(expected))
      case TransientFailure => Err(ManifestUnavailable)
      case HardFailure => Err(ManifestRejected)
  }

  // ------------------------------------------------------------------ ensuring an artifact

  /** The metadata pointer, if the blob it names exists. */
  function CurrentBlob(s: Store, slot: Slot): Option<Artifact> {
    if slot in s.meta && Blob(slot, s.meta[slot].current) in s.files then Some(Blob(slot, s.meta[slot].current))
    else None
  }

  const HISTORY_LIMIT := 10

  function Cut(h: seq<HistoryEntry>): seq<HistoryEntry> {
    if |h| <= HISTORY_LIMIT then h else h[..HISTORY_LIMIT]
  }

  function Without(h: seq<HistoryEntry>, ref: DigestRef): seq<HistoryEntry> {
    if h == [] then []
    else
      var last := h[|h| - 1];
      Without(h[..|h| - 1], ref) + if last.ref == ref then [] else [last]
  }

  function Pushed(h: seq<HistoryEntry>, e: HistoryEntry): seq<HistoryEntry> {
    [e] + Without(h, e.ref)
  }

  function StoredHistory(s: Store, slot: Slot): seq<HistoryEntry> {
    if slot in s.meta then s.meta[slot].history else []
  }

  function SetCurrent(s: Store, slot: Slot, policy: Policy, expected: Expected, now: Time): Store {
    var e := HistoryEntry(expected.ref, now);
    var history := Cut(Pushed(StoredHistory(s, slot), e));
    s.(meta := s.meta[slot := Metadata(policy, expected.ref, now, expected.signed, history)],
       promotions := s.promotions + [Promotion(slot, e)])
  }

  function DownloadToBlob(s: Store, hash: Hash, slot: Slot, policy: Policy, expected: Option<Expected>,
                          up: Upstream): (Store, Result<Artifact, ImageError>)
  {
    if up.download.DownloadFailed? then (s, Err(FetchFailed))
    else
      var algorithm := if expected.Some? then expected.value.ref.algorithm else Sha256;
      var actual := DigestRef(algorithm, hash(algorithm, up.download.bytes));
      if expected.Some? && expected.value.ref != actual then (s, Err(DigestMismatch))
      else
        var blob := Blob(slot, actual);
        var resolved := if expected.Some? then expected.value else Expected(actual, false);
        var stored := s.(files := s.files[blob := File(up.download.bytes, up.now)]);
        (SetCurrent(stored, slot, policy, resolved, up.now), Ok(blob))
  }

  function Ensure(s: Store, hash: Hash, slot: Slot, entry: CatalogEntry, force: bool,
                  up: Upstream): (Store, Result<Artifact, ImageError>)
  {
    var current := CurrentBlob(s, slot);
    var policy := RefreshPolicy(entry);
    var expected := ExpectedDigest(entry, up.manifest);
    if !up.urlAllowed then (s, Err(UrlRejected))
    else if policy.Err? then (s, Err(policy.error))
    else if policy.value.Manual? && !force && current.Some? then (s, Ok(current.value))
    else if expected.Err? then
      if current.Some? && !force && expected.error.ManifestUnavailable? then (s, Ok(current.value))
      else (s, Err(expected.error))
    else if expected.value.Some? then
      var blob := Blob(slot, expected.value.value.ref);
      if blob in s.files then (SetCurrent(s, slot, policy.value, expected.value.value, up.now), Ok(blob))
      else DownloadToBlob(s, hash, slot, policy.value, expected.value, up)
    else if policy.value.Pinned? then (s, Err(NothingToPin))
    else if current.Some? && !force then (s, Ok(current.value))
    else DownloadToBlob(s, hash, slot, policy.value, None, up)
  }

  // ------------------------------------------------------------------ overlays

  /** Provisioning ensures the base, then backs a new overlay with it; an existing overlay is kept. */
  function Provision(s: Store, hash: Hash, id: OverlayId, slot: Slot, entry: CatalogEntry, up: Upstream): Store {
    var (s', r) := Ensure(s, hash, slot, entry, false, up);
    if r.Ok? && id !in s'.overlays then s'.(overlays := s'.overlays[id := Some(r.value)]) else s'
  }

  function BlankDisk(s: Store, id: OverlayId): Store {
    if id in s.overlays then s else s.(overlays := s.overlays[id := None])
  }

  function DeleteOverlay(s: Store, id: OverlayId): Store {
    s.(overlays := s.overlays - {id})
  }

  // ------------------------------------------------------------------ pruning

  /** What asking `qemu-img` about every overlay yields. */
  datatype Probe = ToolMissing | Asked(unreadable: set<OverlayId>)

  function BackingOf(overlays: map<OverlayId, Option<Artifact>>, ids: set<OverlayId>): set<Artifact> {
    set id | id in ids && id in overlays && overlays[id].Some? :: overlays[id].value
  }

  /** The backing files found, and whether every overlay could be read. */
  function BackingFiles(overlays: map<OverlayId, Option<Artifact>>, probe: Probe): (set<Artifact>, bool) {
    match probe
    case ToolMissing => ({}, overlays == map[])
    case Asked(unreadable) => (BackingOf(overlays, overlays.Keys - unreadable), overlays.Keys !! unreadable)
  }

  function CurrentBlobs(s: Store): set<Artifact> {
    set slot | slot in s.meta && Blob(slot, s.meta[slot].current) in s.files :: Blob(slot, s.meta[slot].current)
  }

  datatype PruneRequest = PruneRequest(now: Time, olderThan: int, probe: Probe)

  function Cutoff(q: PruneRequest): Time {
    q.now - if q.olderThan > 0 then q.olderThan else 0
  }

  predicate Prunable(s: Store, q: PruneRequest, a: Artifact) {
    var (inUse, known) := BackingFiles(s.overlays, q.probe);
    && a in s.files
    && a !in CurrentBlobs(s)
    && a !in inUse
    && (known || a.Legacy?)
    && s.files[a].mtime <= Cutoff(q)
  }

  datatype Removed = Removed(artifact: Artifact, size: nat)

  datatype Report = Report(dryRun: bool, removed: seq<Removed>, freed: nat, backingKnown: bool)

  function Size(f: File): nat {
    |f.bytes.octets|
  }

  function TotalSize(removed: seq<Removed>): nat {
    if removed == [] then 0 else TotalSize(removed[..|removed| - 1]) + removed[|removed| - 1].size
  }

  /** The artifacts of `order` that a prune of `s` removes, in that order. */
  function ToRemove(s: Store, q: PruneRequest, order: seq<Artifact>): seq<Removed> {
    if order == [] then []
    else
      var a := order[|order| - 1];
      ToRemove(s, q, order[..|order| - 1]) + if Prunable(s, q, a) then [Removed(a, Size(s.files[a]))] else []
  }

  function Artifacts(removed: seq<Removed>): set<Artifact> {
    set i | 0 <= i < |removed| :: removed[i].artifact
  }

  ghost predicate IsListing(s: Store, order: seq<Artifact>) {
    NoDuplicates(order) && forall a :: a in order <==> a in s.files
  }

  function Prune(s: Store, q: PruneRequest, order: seq<Artifact>, dryRun: bool): (Store, Report) {
    var removed := ToRemove(s, q, order);
    (if dryRun then s else s.(files := s.files - Artifacts(removed)),
     Report(dryRun, removed, TotalSize(removed), BackingFiles(s.overlays, q.probe).1))
  }

  // ------------------------------------------------------------------ runs

  datatype Step =
    | EnsureStep(slot: Slot, entry: CatalogEntry, force: bool, up: Upstream)
    | ProvisionStep(id: OverlayId, slot: Slot, entry: CatalogEntry, up: Upstream)
    | BlankDiskStep(id: OverlayId)
    | DeleteOverlayStep(id: OverlayId)
    | PruneStep(q: PruneRequest, order: seq<Artifact>, dryRun: bool)

  function Apply(s: Store, hash: Hash, step: Step): Store {
    match step
    case EnsureStep(slot, entry, force, up) => Ensure(s, hash, slot, entry, force, up).0
    case ProvisionStep(id, slot, entry, up) => Provision(s, hash, id, slot, entry, up)
    case BlankDiskStep(id) => BlankDisk(s, id)
    case DeleteOverlayStep(id) => DeleteOverlay(s, id)
    case PruneStep(q, order, dryRun) => Prune(s, q, order, dryRun).0
  }

  function Run(s: Store, hash: Hash, steps: seq<Step>): Store {
    if steps == [] then s
    else Apply(Run(s, hash, steps[..|steps| - 1]), hash, steps[|steps| - 1])
  }
}
