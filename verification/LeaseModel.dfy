/**
 The state the stale-lease scanner works on, and what one scan, one handler call or one
 change on the host does to it.  A scan visits every row of the `vms` table; `Visit` says
 what happens to the part of the state that belongs to one row, given the hypervisor's
 answers, and `ScanRows` folds it over the rows in the order the database lists them.

 Times are integers in any one unit.  Only libvirt-backed rows (kind `vm`) are modelled.
*/
module LeaseModel {
  import opened Common

  /** Identifiers are only ever compared. */
  type VmId(==, !new)
  type ProjectId(==, !new)
  type DomainName(==, !new)

  type Time = int

  datatype PowerState = Pending | Running | Paused | Stopping | Stopped | Error | Unknown | Deleting

  /** The states the hypervisor reports for a domain it knows. */
  type HostState = s: PowerState | !s.Pending? && !s.Deleting? witness Stopped

  predicate IsLive(s: PowerState) {
    s.Running? || s.Paused? || s.Stopping?
  }

  predicate IsHalted(s: PowerState) {
    s.Stopped? || s.Error? || s.Unknown?
  }

  datatype Origin = Boxer | Imported | Adopted

  datatype VmRow = VmRow(id: VmId, libvirtName: DomainName, projectId: ProjectId,
                         state: PowerState, leaseUntil: Time, origin: Origin)

  datatype LastError = NoError | CallRaised | StillIn(state: HostState)

  datatype CleanupAction = CleanupAction(projectId: ProjectId, requestedAt: Time,
                                         forceAfter: Time, lastError: LastError)

  datatype Call = Call(projectId: ProjectId, calledAt: Time)

  datatype Config = Config(forceGrace: Time, deleteGrace: Time, activityWindow: Time,
                           activityThreshold: int, callRetention: Time)

  datatype Level = Info | Warn | Fault

  datatype Message =
    | LeaseExpired(leaseUntil: Time)
    | HaltedAfterRequest
    | GracefulRequested(recentCalls: nat, forceAfter: Time)
    | ForceFailed(lastError: LastError, retryAfter: Time)
    | TurnedOff(recentCalls: nat)
    | AutoDeleted
    | DeletedByUser

  datatype Event = Event(level: Level, projectId: ProjectId, vmId: VmId, message: Message)

  datatype Notice = Notice(projectId: ProjectId, vmId: VmId, forcedAt: Time,
                           stateAfter: PowerState, recentCalls: nat)

  /** What an observer beside the scanner would write down, oldest entry first. */
  datatype Entry =
    | Saw(vmId: VmId, at: Time, leaseLive: bool, state: PowerState)
    | AskedOff(vmId: VmId, at: Time)
    | ForcedOff(vmId: VmId, at: Time, succeeded: bool)
    | Erased(vmId: VmId, at: Time, byScan: bool)

  /** Outcome of one stop call: whether it raised, and the domain afterwards (None: gone). */
  datatype CallReply = CallReply(raises: bool, after: Option<HostState>)

  /** How the host answers the calls a scan or a delete may make about one domain. */
  datatype HostReply = HostReply(graceful: CallReply, force: CallReply,
                                 undefined: Option<HostState>, storageFails: bool)

  type Replies = DomainName -> HostReply

  datatype World = World(vms: map<VmId, VmRow>, actions: map<VmId, CleanupAction>,
                         callLog: seq<Call>, domains: map<DomainName, HostState>,
                         storage: set<(ProjectId, VmId)>,
                         events: seq<Event>, notices: seq<Notice>, history: seq<Entry>)

  /** Primary key, unique domain names, and cleanup actions only for existing rows. */
  ghost predicate WellFormed(w: World) {
    && (forall id :: id in w.vms ==> w.vms[id].id == id)
    && (forall a, b :: a in w.vms && b in w.vms && a != b ==> w.vms[a].libvirtName != w.vms[b].libvirtName)
    && w.actions.Keys <= w.vms.Keys
  }

  // ------------------------------------------------------------------ one row's share

  /** The part of the state that belongs to one row. */
  datatype Slot = Slot(row: Option<VmRow>, action: Option<CleanupAction>,
                       domain: Option<HostState>, stored: bool)

  datatype Visited = Visited(slot: Slot, events: seq<Event>, notices: seq<Notice>, entries: seq<Entry>)

  function Lookup<K, V>(m: map<K, V>, k: K): Option<V> {
    if k in m then Some(m[k]) else None
  }

  function Assign<K, V>(m: map<K, V>, k: K, v: Option<V>): map<K, V> {
    match v
    case Some(x) => m[k := x]
    case None => m - {k}
  }

  function SlotOf(w: World, row: VmRow): Slot {
    Slot(Lookup(w.vms, row.id), Lookup(w.actions, row.id),
         Lookup(w.domains, row.libvirtName), (row.projectId, row.id) in w.storage)
  }

  function Put(w: World, row: VmRow, v: Visited): World {
    World(Assign(w.vms, row.id, v.slot.row),
          Assign(w.actions, row.id, v.slot.action),
          w.callLog,
          Assign(w.domains, row.libvirtName, v.slot.domain),
          if v.slot.stored then w.storage + {(row.projectId, row.id)} else w.storage - {(row.projectId, row.id)},
          w.events + v.events, w.notices + v.notices, w.history + v.entries)
  }

  /** `get_state`: an absent domain reads as unknown. */
  function Observed(domain: Option<HostState>): HostState {
    match domain
    case Some(s) => s
    case None => Unknown
  }

  /** `stop` on an absent domain returns silently. */
  function StopRaises(domain: Option<HostState>, reply: CallReply): bool {
    domain.Some? && reply.raises
  }

  function AfterStop(domain: Option<HostState>, reply: CallReply): Option<HostState> {
    if domain.Some? then reply.after else None
  }

  function EffectiveState(row: VmRow, domain: Option<HostState>): PowerState {
    if Observed(domain) != Unknown then Observed(domain) else row.state
  }

  /** The row after the scan has written the observed state back. */
  function Refreshed(row: VmRow, domain: Option<HostState>): VmRow {
    row.(state := EffectiveState(row, domain))
  }

  function EventFor(level: Level, row: VmRow, message: Message): Event {
    Event(level, row.projectId, row.id, message)
  }

  function RequestGraceful(slot: Slot, row: VmRow, now: Time, recent: nat, cfg: Config, reply: HostReply): Visited {
    var forceAfter := now + cfg.forceGrace;
    var error := if StopRaises(slot.domain, reply.graceful) then CallRaised else NoError;
    Visited(
      Slot(Some(row.(state := Stopping)), Some(CleanupAction(row.projectId, now, forceAfter, error)),
           AfterStop(slot.domain, reply.graceful), slot.stored),
      [EventFor(Warn, row, GracefulRequested(recent, forceAfter))],
      [],
      [AskedOff(row.id, now)])
  }

  function ForceShutdown(slot: Slot, row: VmRow, now: Time, recent: nat, cfg: Config, reply: HostReply): Visited {
    var raised := StopRaises(slot.domain, reply.force);
    var domain := AfterStop(slot.domain, reply.force);
    var live := Observed(domain);
    if raised || IsLive(live) then
      var retryAfter := now + cfg.forceGrace;
      var error := if raised then CallRaised else StillIn(live);
      Visited(
        Slot(Some(row), Some(CleanupAction(row.projectId, now, retryAfter, error)), domain, slot.stored),
        [EventFor(Fault, row, ForceFailed(error, retryAfter))],
        [],
        [ForcedOff(row.id, now, false)])
    else
      Visited(
        Slot(Some(row.(state := if live == Unknown then Unknown else Stopped)), None, domain, slot.stored),
        [EventFor(Warn, row, TurnedOff(recent))],
        [Notice(row.projectId, row.id, now, live, recent)],
        [ForcedOff(row.id, now, true)])
  }

  function CleanupRunning(slot: Slot, row: VmRow, now: Time, recent: nat, cfg: Config, reply: HostReply): Visited {
    if recent >= cfg.activityThreshold then
      Visited(slot, [], [], [])
    else if slot.action.None? then
      RequestGraceful(slot, row, now, recent, cfg, reply)
    else if now >= slot.action.value.forceAfter then
      ForceShutdown(slot, row, now, recent, cfg, reply)
    else
      Visited(slot, [], [], [])
  }

  function AutoDelete(slot: Slot, row: VmRow, now: Time, reply: HostReply): Visited {
    var domain := if slot.domain.Some? then reply.undefined else None;
    if row.origin.Boxer? && slot.stored && reply.storageFails then
      Visited(slot.(domain := domain), [], [], [])
    else
      Visited(
        Slot(None, None, domain, slot.stored && !row.origin.Boxer?),
        [EventFor(Info, row, AutoDeleted)],
        [],
        [Erased(row.id, now, true)])
  }

  /** A halted row: close a pending action, then delete once the delete grace has passed. */
  function RetireHalted(slot: Slot, row: VmRow, now: Time, cfg: Config, reply: HostReply): Visited {
    var closed := slot.(action := None);
    var events := if slot.action.Some? then [EventFor(Info, row, HaltedAfterRequest)] else [];
    if row.leaseUntil < now - cfg.deleteGrace then
      var d := AutoDelete(closed, row, now, reply);
      d.(events := events + d.events)
    else
      Visited(closed, events, [], [])
  }

  /** What the scan decides about a row whose state it has just refreshed. */
  function Judge(slot: Slot, row: VmRow, now: Time, recent: nat, cfg: Config, reply: HostReply): Visited {
    if now <= row.leaseUntil then
      Visited(slot.(action := None), [], [], [])
    else if IsLive(row.state) then
      var v := CleanupRunning(slot, row, now, recent, cfg, reply);
      v.(events := [EventFor(Warn, row, LeaseExpired(row.leaseUntil))] + v.events)
    else if IsHalted(row.state) then
      RetireHalted(slot, row, now, cfg, reply)
    else
      Visited(slot, [], [], [])
  }

  /** What one scan does to one row's share of the state. */
  function Visit(slot: Slot, now: Time, recent: nat, cfg: Config, reply: HostReply): Visited
    requires slot.row.Some?
  {
    var row := Refreshed(slot.row.value, slot.domain);
    var v := Judge(slot.(row := Some(row)), row, now, recent, cfg, reply);
    v.(entries := [Saw(row.id, now, now <= row.leaseUntil, row.state)] + v.entries)
  }

  lemma PutSetsOwn(w: World, row: VmRow, v: Visited)
    ensures SlotOf(Put(w, row, v), row) == v.slot
  {
  }

  /** Putting twice for one row leaves the last slot and both outputs. */
  lemma PutTwice(w: World, row: VmRow, a: Visited, b: Visited)
    ensures Put(Put(w, row, a), row, b)
            == Put(w, row, Visited(b.slot, a.events + b.events, a.notices + b.notices, a.entries + b.entries))
  {
    var once := Put(w, row, Visited(b.slot, a.events + b.events, a.notices + b.notices, a.entries + b.entries));
    var twice := Put(Put(w, row, a), row, b);
    assert twice.vms == once.vms && twice.actions == once.actions && twice.domains == once.domains;
    assert twice.storage == once.storage;
    assert twice.events == once.events && twice.notices == once.notices && twice.history == once.history;
  }

  lemma PutNothing(w: World, row: VmRow)
    ensures Put(w, row, Visited(SlotOf(w, row), [], [], [])) == w
  {
    var w' := Put(w, row, Visited(SlotOf(w, row), [], [], []));
    assert w'.vms == w.vms && w'.actions == w.actions && w'.domains == w.domains;
  }

  /** A visit never renames or moves its row, and leaves no action behind for a deleted one. */
  ghost predicate StaysItself(row: VmRow, slot: Slot) {
    && (slot.row.Some? ==>
          && slot.row.value.id == row.id
          && slot.row.value.libvirtName == row.libvirtName
          && slot.row.value.projectId == row.projectId
          && slot.row.value.origin == row.origin
          && slot.row.value.leaseUntil == row.leaseUntil)
    && (slot.row.None? ==> slot.action.None?)
  }

  lemma VisitStaysItself(slot: Slot, now: Time, recent: nat, cfg: Config, reply: HostReply)
    requires slot.row.Some?
    ensures StaysItself(slot.row.value, Visit(slot, now, recent, cfg, reply).slot)
  {
  }

  lemma PutKeepsWellFormed(w: World, id: VmId, v: Visited)
    requires WellFormed(w) && id in w.vms && StaysItself(w.vms[id], v.slot)
    ensures WellFormed(Put(w, w.vms[id], v))
    ensures Put(w, w.vms[id], v).vms.Keys <= w.vms.Keys
  {
  }

  // ------------------------------------------------------------------ the whole scan

  function CallsSince(log: seq<Call>, projectId: ProjectId, since: Time): nat {
    if log == [] then 0
    else CallsSince(log[..|log| - 1], projectId, since)
         + if log[|log| - 1].projectId == projectId && log[|log| - 1].calledAt >= since then 1 else 0
  }

  function CallsKept(log: seq<Call>, since: Time): seq<Call> {
    if log == [] then []
    else CallsKept(log[..|log| - 1], since)
         + if log[|log| - 1].calledAt >= since then [log[|log| - 1]] else []
  }

  function VisitOf(w: World, row: VmRow, cfg: Config, now: Time, reply: Replies): Visited
    requires row.id in w.vms
  {
    Visit(SlotOf(w, row), now, CallsSince(w.callLog, row.projectId, now - cfg.activityWindow), cfg,
          reply(row.libvirtName))
  }

  function VisitRow(w: World, id: VmId, cfg: Config, now: Time, reply: Replies): World {
    if id in w.vms && w.vms[id].id == id then Put(w, w.vms[id], VisitOf(w, w.vms[id], cfg, now, reply)) else w
  }

  function ScanRows(w: World, order: seq<VmId>, cfg: Config, now: Time, reply: Replies): World {
    if order == [] then w
    else VisitRow(ScanRows(w, order[..|order| - 1], cfg, now, reply), order[|order| - 1], cfg, now, reply)
  }

  /** `order` lists every row of the table exactly once. */
  ghost predicate IsListing(w: World, order: seq<VmId>) {
    && NoDuplicates(order)
    && (forall id :: id in order <==> id in w.vms)
  }

  function Scan(w: World, order: seq<VmId>, cfg: Config, now: Time, reply: Replies): World {
    var s := ScanRows(w, order, cfg, now, reply);
    s.(callLog := CallsKept(s.callLog, now - cfg.callRetention))
  }

  // ------------------------------------------------------------------ handlers and the host

  function ExtendedLease(leaseUntil: Time, now: Time, ttl: Time): Time {
    (if leaseUntil >= now then leaseUntil else now) + ttl
  }

  function Extend(w: World, id: VmId, now: Time, ttl: Time): World {
    if id in w.vms then
      w.(vms := w.vms[id := w.vms[id].(leaseUntil := ExtendedLease(w.vms[id].leaseUntil, now, ttl))])
    else w
  }

  /** `vm.delete`: a storage failure leaves the row behind, marked as deleting. */
  function Delete(w: World, id: VmId, now: Time, reply: HostReply): World {
    if id !in w.vms then w
    else
      var row := w.vms[id];
      var slot := SlotOf(w, row);
      var domain := if slot.domain.Some? then reply.undefined else None;
      if row.origin.Boxer? && slot.stored && reply.storageFails then
        w.(vms := w.vms[id := row.(state := Deleting)], domains := Assign(w.domains, row.libvirtName, domain))
      else
        Put(w, row, Visited(Slot(None, None, domain, slot.stored && !row.origin.Boxer?),
                            [EventFor(Info, row, DeletedByUser)], [], [Erased(id, now, false)]))
  }

  function RecordCall(w: World, projectId: ProjectId, now: Time): World {
    w.(callLog := w.callLog + [Call(projectId, now)])
  }

  /** `vm.start`: raises when the domain is gone, or when libvirt does; only then the row stays as it is. */
  function Start(w: World, id: VmId, reply: CallReply): World {
    if id !in w.vms || w.vms[id].libvirtName !in w.domains then w
    else
      var w' := w.(domains := Assign(w.domains, w.vms[id].libvirtName, reply.after));
      if reply.raises then w' else w'.(vms := w.vms[id := w.vms[id].(state := Running)])
  }

  /** `vm.stop`: records the VM as stopped whatever the guest does, unless the call raises. */
  function Stop(w: World, id: VmId, reply: CallReply): World {
    if id !in w.vms then w
    else
      var row := w.vms[id];
      var domain := Lookup(w.domains, row.libvirtName);
      var w' := w.(domains := Assign(w.domains, row.libvirtName, AfterStop(domain, reply)));
      if StopRaises(domain, reply) then w' else w'.(vms := w.vms[id := row.(state := Stopped)])
  }

  function HostChange(w: World, name: DomainName, state: Option<HostState>): World {
    w.(domains := Assign(w.domains, name, state))
  }

  /** A provisioned VM; the table's key and its unique domain name reject a clash. */
  function Create(w: World, row: VmRow): World {
    if row.id in w.vms || exists id :: id in w.vms && w.vms[id].libvirtName == row.libvirtName then w
    else
      w.(vms := w.vms[row.id := row], domains := w.domains[row.libvirtName := Running],
         storage := w.storage + {(row.projectId, row.id)})
  }

  datatype Step =
    | ScanStep(now: Time, order: seq<VmId>, replies: Replies)
    | ExtendStep(now: Time, vmId: VmId, ttl: Time)
    | DeleteStep(now: Time, vmId: VmId, reply: HostReply)
    | CallStep(now: Time, projectId: ProjectId)
    | StartStep(now: Time, vmId: VmId, call: CallReply)
    | StopStep(now: Time, vmId: VmId, call: CallReply)
    | HostStep(now: Time, name: DomainName, state: Option<HostState>)
    | CreateStep(now: Time, row: VmRow)

  function Apply(w: World, cfg: Config, step: Step): World {
    match step
    case ScanStep(now, order, replies) => Scan(w, order, cfg, now, replies)
    case ExtendStep(now, id, ttl) => Extend(w, id, now, ttl)
    case DeleteStep(now, id, reply) => Delete(w, id, now, reply)
    case CallStep(now, projectId) => RecordCall(w, projectId, now)
    case StartStep(_, id, reply) => Start(w, id, reply)
    case StopStep(_, id, reply) => Stop(w, id, reply)
    case HostStep(_, name, state) => HostChange(w, name, state)
    case CreateStep(_, row) => Create(w, row)
  }

  /** The scan lists the table as it stands when it runs. */
  ghost predicate Enabled(w: World, step: Step) {
    step.ScanStep? ==> IsListing(w, step.order)
  }

  function Run(w: World, cfg: Config, steps: seq<Step>): World {
    if steps == [] then w
    else Apply(Run(w, cfg, steps[..|steps| - 1]), cfg, steps[|steps| - 1])
  }

  /** Every step is enabled where it happens, and the clock never runs backwards from `start`. */
  ghost predicate IsRun(w: World, cfg: Config, start: Time, steps: seq<Step>) {
    steps == [] ||
    var before := steps[..|steps| - 1];
    var last := steps[|steps| - 1];
    && IsRun(w, cfg, start, before)
    && Enabled(Run(w, cfg, before), last)
    && Clock(start, before) <= last.now
  }

  function Clock(start: Time, steps: seq<Step>): Time {
    if steps == [] then start else steps[|steps| - 1].now
  }
}
