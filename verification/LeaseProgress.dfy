/**
 Progress of the cleanup: an abandoned VM is off after at most two scans a force grace apart,
 and the next scan past its lease plus the delete grace removes its row.  `Rank` is the measure
 every such scan lowers.  The one exception is a row stored as deleting (or pending) whose
 domain the hypervisor no longer knows: no scan ever changes it.
*/
module LeaseProgress {
  import opened Common
  import opened LeaseModel
  import opened LeaseSafety
  import opened LeaseOrder

  /** The row or the hypervisor says the VM is on. */
  predicate MayBeOn(slot: Slot) {
    slot.row.Some? && (IsLive(slot.row.value.state) || IsLive(Observed(slot.domain)))
  }

  /** Neither branch of the scan handles this row. */
  predicate Stuck(slot: Slot) {
    slot.row.Some? && Observed(slot.domain).Unknown?
      && (slot.row.value.state.Deleting? || slot.row.value.state.Pending?)
  }

  /** How many scans the row has ahead of it if the next one comes at `next`. */
  function Rank(slot: Slot, next: Time): nat {
    if slot.row.None? then 0
    else if !MayBeOn(slot) then 1
    else if slot.action.Some? && slot.action.value.forceAfter <= next then 2
    else 3
  }

  /** Forced power-off works, and so does removing files. */
  predicate Obliging(reply: HostReply) {
    && !reply.force.raises
    && (reply.force.after.Some? ==> !IsLive(reply.force.after.value))
    && !reply.storageFails
  }

  /** Every scan of an abandoned VM lowers its rank, down to 1, and to 0 after the delete grace. */
  lemma VisitLowersRank(slot: Slot, now: Time, recent: nat, cfg: Config, reply: HostReply, next: Time)
    requires slot.row.Some? && slot.row.value.leaseUntil < now && !Stuck(slot)
    requires slot.action.Some? ==> slot.action.value.forceAfter <= now + cfg.forceGrace
    requires recent < cfg.activityThreshold && Obliging(reply) && now + cfg.forceGrace <= next
    ensures var after := Visit(slot, now, recent, cfg, reply).slot;
            && !Stuck(after)
            && (Rank(slot, now) > 1 ==> Rank(after, next) < Rank(slot, now))
            && (Rank(slot, now) == 1 ==>
                  Rank(after, next) == if slot.row.value.leaseUntil < now - cfg.deleteGrace then 0 else 1)
  {
  }

  /** A stuck row is left exactly as it is by every visit past its lease. */
  lemma VisitKeepsStuck(slot: Slot, now: Time, recent: nat, cfg: Config, reply: HostReply)
    requires Stuck(slot) && slot.row.value.leaseUntil < now
    ensures Visit(slot, now, recent, cfg, reply).slot == slot
  {
  }

  // ------------------------------------------------------------------ abandoned runs

  ghost predicate SameVm(w: World, row: VmRow) {
    row.id in w.vms ==>
      && w.vms[row.id].libvirtName == row.libvirtName && w.vms[row.id].projectId == row.projectId
      && w.vms[row.id].leaseUntil == row.leaseUntil && w.vms[row.id].origin == row.origin
  }

  /** Nobody extended the lease, turned the VM on, or touched its cleanup action. */
  ghost predicate Calm(w: World, w': World, row: VmRow) {
    && SameVm(w', row)
    && (row.id in w'.vms ==>
          && row.id in w.vms
          && SlotOf(w', row).action == SlotOf(w, row).action
          && (MayBeOn(SlotOf(w', row)) ==> MayBeOn(SlotOf(w, row)))
          && !Stuck(SlotOf(w', row)))
  }

  function Scans(steps: seq<Step>): nat {
    if steps == [] then 0
    else Scans(steps[..|steps| - 1]) + if steps[|steps| - 1].ScanStep? then 1 else 0
  }

  /** The earliest time the next scan may come, scans being a force grace apart. */
  function Due(start: Time, cfg: Config, steps: seq<Step>): Time {
    if steps == [] then start
    else if steps[|steps| - 1].ScanStep? then steps[|steps| - 1].now + cfg.forceGrace
    else Due(start, cfg, steps[..|steps| - 1])
  }

  /** A scan that finds the VM's lease over, its project quiet and its host obliging. */
  ghost predicate CleanScan(w: World, cfg: Config, step: Step, row: VmRow) {
    && step.ScanStep?
    && row.leaseUntil < step.now
    && CallsSince(w.callLog, row.projectId, step.now - cfg.activityWindow) < cfg.activityThreshold
    && Obliging(step.replies(row.libvirtName))
  }

  ghost predicate Abandoned(w: World, cfg: Config, start: Time, steps: seq<Step>, row: VmRow) {
    steps == [] ||
    var before, last := steps[..|steps| - 1], steps[|steps| - 1];
    && Abandoned(w, cfg, start, before, row)
    && if last.ScanStep? then
         CleanScan(Run(w, cfg, before), cfg, last, row) && Due(start, cfg, before) <= last.now
       else
         Calm(Run(w, cfg, before), Run(w, cfg, steps), row)
  }

  lemma PlanIsVisit(w: World, cfg: Config, now: Time, reply: Replies, row: VmRow)
    requires WellFormed(w) && SameVm(w, row) && row.id in w.vms
    ensures var recent := CallsSince(w.callLog, row.projectId, now - cfg.activityWindow);
            var after := Visit(SlotOf(w, row), now, recent, cfg, reply(row.libvirtName)).slot;
            && Plan(w, cfg, now, reply)(row.id).slot == after
            && StaysItself(w.vms[row.id], after)
  {
    var recent := CallsSince(w.callLog, row.projectId, now - cfg.activityWindow);
    assert SlotOf(w, w.vms[row.id]) == SlotOf(w, row);
    VisitStaysItself(SlotOf(w, row), now, recent, cfg, reply(row.libvirtName));
  }

  /** A scan is, for one VM, a visit to its share of the state. */
  lemma ScanIsVisit(w: World, order: seq<VmId>, cfg: Config, now: Time, reply: Replies, row: VmRow)
    requires WellFormed(w) && IsListing(w, order) && SameVm(w, row)
    ensures var s := Scan(w, order, cfg, now, reply);
            && SameVm(s, row)
            && (row.id !in w.vms ==> row.id !in s.vms)
            && (row.id in w.vms ==>
                  SlotOf(s, row)
                  == Visit(SlotOf(w, row), now, CallsSince(w.callLog, row.projectId, now - cfg.activityWindow), cfg,
                           reply(row.libvirtName)).slot)
  {
    ScanVisitsEach(w, order, cfg, now, reply);
    if row.id in w.vms {
      PlanIsVisit(w, cfg, now, reply, row);
      OneShare(w, ScanRows(w, order, cfg, now, reply), order, Plan(w, cfg, now, reply), row);
    }
  }

  lemma OneShare(w: World, s: World, order: seq<VmId>, plan: VmId -> Visited, row: VmRow)
    requires VisitedExactly(w, s, order, plan) && row.id in order && row.id in w.vms
    requires WellFormed(w) && SameVm(w, row) && StaysItself(w.vms[row.id], plan(row.id).slot)
    ensures SlotOf(s, row) == plan(row.id).slot && SameVm(s, row)
  {
    assert SlotOf(s, w.vms[row.id]) == plan(row.id).slot;
  }

  /** The last step is at least the third scan and comes after the delete grace. */
  predicate EndsPastGrace(cfg: Config, steps: seq<Step>, row: VmRow) {
    && steps != [] && steps[|steps| - 1].ScanStep? && Scans(steps) >= 3
    && row.leaseUntil < steps[|steps| - 1].now - cfg.deleteGrace
  }

  function RanksLeft(scans: nat): nat {
    if scans >= 2 then 1 else 3 - scans
  }

  lemma {:induction false} RankFalls(w: World, cfg: Config, start: Time, steps: seq<Step>, row: VmRow)
    requires Inv(w, cfg, start) && IsRun(w, cfg, start, steps) && Abandoned(w, cfg, start, steps, row)
    requires row.id in w.vms && w.vms[row.id] == row && !Stuck(SlotOf(w, row))
    ensures var w' := Run(w, cfg, steps);
            && SameVm(w', row)
            && (row.id in w'.vms ==>
                  && !Stuck(SlotOf(w', row))
                  && Rank(SlotOf(w', row), Due(start, cfg, steps)) <= RanksLeft(Scans(steps)))
    ensures EndsPastGrace(cfg, steps, row) ==> row.id !in Run(w, cfg, steps).vms
  {
    if steps == [] {
    } else {
      var before, last := steps[..|steps| - 1], steps[|steps| - 1];
      var mid := Run(w, cfg, before);
      RankFalls(w, cfg, start, before, row);
      RunKeepsInv(w, cfg, start, before);
      if last.ScanStep? {
        ScanIsVisit(mid, last.order, cfg, last.now, last.replies, row);
        if row.id in mid.vms {
          ScanLowersRank(mid, cfg, Clock(start, before), last, row);
        }
      }
    }
  }

  lemma ScanLowersRank(w: World, cfg: Config, clock: Time, step: Step, row: VmRow)
    requires Inv(w, cfg, clock) && clock <= step.now && SameVm(w, row) && row.id in w.vms
    requires Enabled(w, step) && CleanScan(w, cfg, step, row) && !Stuck(SlotOf(w, row))
    ensures var w' := Apply(w, cfg, step);
            var rank, rank' := Rank(SlotOf(w, row), step.now), Rank(SlotOf(w', row), step.now + cfg.forceGrace);
            && !Stuck(SlotOf(w', row))
            && (rank > 1 ==> rank' < rank)
            && (rank == 1 ==> rank' == if row.leaseUntil < step.now - cfg.deleteGrace then 0 else 1)
  {
    ScanIsVisit(w, step.order, cfg, step.now, step.replies, row);
    VisitLowersRank(SlotOf(w, row), step.now, CallsSince(w.callLog, row.projectId, step.now - cfg.activityWindow), cfg,
                    step.replies(row.libvirtName), step.now + cfg.forceGrace);
  }

  /**
   Bounded progress.  Take any run from a state the cleanup can be in, over which a VM is
   abandoned: its lease is not extended and runs out before the first scan, its project stays
   under the activity threshold, nobody turns it on, scans are at least the force grace apart
   and forced power-off works.  After two scans the VM is off, by the row and by the
   hypervisor; and a third or later scan past the lease plus delete grace removes the row.
   A domain that vanishes at any point of the run changes nothing in this.
  */
  lemma AbandonedVmIsReclaimed(w: World, cfg: Config, start: Time, steps: seq<Step>, id: VmId)
    requires Inv(w, cfg, start) && IsRun(w, cfg, start, steps) && id in w.vms
    requires Abandoned(w, cfg, start, steps, w.vms[id]) && !Stuck(SlotOf(w, w.vms[id]))
    ensures var w' := Run(w, cfg, steps);
            && (Scans(steps) >= 2 ==> !MayBeOn(SlotOf(w', w.vms[id])))
            && (EndsPastGrace(cfg, steps, w.vms[id]) ==> id !in w'.vms)
  {
    RankFalls(w, cfg, start, steps, w.vms[id]);
  }

  // ------------------------------------------------------------------ the row no scan reclaims

  lemma {:induction false} StuckRowStays(w: World, cfg: Config, start: Time, steps: seq<Step>, row: VmRow)
    requires Inv(w, cfg, start) && IsRun(w, cfg, start, steps)
    requires row.id in w.vms && w.vms[row.id] == row && Stuck(SlotOf(w, row))
    requires forall i :: 0 <= i < |steps| ==> steps[i].ScanStep? && row.leaseUntil < steps[i].now
    ensures SlotOf(Run(w, cfg, steps), row) == SlotOf(w, row)
  {
    if steps == [] {
    } else {
      var before, last := steps[..|steps| - 1], steps[|steps| - 1];
      var mid := Run(w, cfg, before);
      StuckRowStays(w, cfg, start, before, row);
      RunKeepsInv(w, cfg, start, before);
      assert mid.vms[row.id] == row by { assert SlotOf(mid, row).row == Some(row); }
      ScanIsVisit(mid, last.order, cfg, last.now, last.replies, row);
      var recent := CallsSince(mid.callLog, row.projectId, last.now - cfg.activityWindow);
      VisitKeepsStuck(SlotOf(mid, row), last.now, recent, cfg, last.replies(row.libvirtName));
    }
  }

  /**
   When nothing but scans happens, three or more of them ending past the delete grace reclaim
   an abandoned row exactly when it is not stuck: stored as deleting or pending while the
   hypervisor does not know its domain.
  */
  lemma ScansReclaimUnlessStuck(w: World, cfg: Config, start: Time, steps: seq<Step>, id: VmId)
    requires Inv(w, cfg, start) && IsRun(w, cfg, start, steps) && id in w.vms
    requires Abandoned(w, cfg, start, steps, w.vms[id]) && EndsPastGrace(cfg, steps, w.vms[id])
    requires forall i :: 0 <= i < |steps| ==> steps[i].ScanStep? && w.vms[id].leaseUntil < steps[i].now
    ensures id !in Run(w, cfg, steps).vms <==> !Stuck(SlotOf(w, w.vms[id]))
  {
    if Stuck(SlotOf(w, w.vms[id])) {
      StuckRowStays(w, cfg, start, steps, w.vms[id]);
      assert SlotOf(Run(w, cfg, steps), w.vms[id]).row.Some?;
    } else {
      AbandonedVmIsReclaimed(w, cfg, start, steps, id);
    }
  }

  /** A delete whose files cannot be removed is how a row gets stuck. */
  lemma FailedDeleteSticks(w: World, id: VmId, now: Time, reply: HostReply)
    requires WellFormed(w) && id in w.vms && w.vms[id].origin.Boxer?
    requires (w.vms[id].projectId, id) in w.storage && reply.storageFails && reply.undefined.None?
    ensures var w' := Delete(w, id, now, reply); id in w'.vms && Stuck(SlotOf(w', w'.vms[id]))
  {
  }

  // ------------------------------------------------------------------ what counts as calm

  /** Calls, and every step about other VMs, are calm for this one; so is its guest halting or vanishing. */
  lemma CalmSteps(w: World, cfg: Config, step: Step, row: VmRow)
    requires WellFormed(w) && SameVm(w, row) && row.id in w.vms && !Stuck(SlotOf(w, row))
    requires match step
             case ScanStep(_, _, _) => false
             case ExtendStep(_, id, _) => id != row.id
             case DeleteStep(_, id, _) => id != row.id
             case CallStep(_, _) => true
             case StartStep(_, id, _) => id != row.id
             case StopStep(_, id, reply) =>
               id != row.id || (!reply.raises && (reply.after.Some? ==> !IsLive(reply.after.value)))
             case HostStep(_, name, state) =>
               name != row.libvirtName
               || (state.Some? && !IsLive(state.value) && !state.value.Unknown?)
               || (Observed(state).Unknown? && !w.vms[row.id].state.Deleting? && !w.vms[row.id].state.Pending?)
             case CreateStep(_, _) => true
    ensures Calm(w, Apply(w, cfg, step), row)
  {
    hide Calm, Delete, Stop, HostChange, Create, Start;
    match step
    case ExtendStep(now, id, ttl) => CalmExtend(w, id, now, ttl, row);
    case DeleteStep(now, id, reply) => CalmDelete(w, id, now, reply, row);
    case CallStep(now, p) => CalmCall(w, p, now, row);
    case StartStep(_, id, reply) => CalmStart(w, id, reply, row);
    case StopStep(_, id, reply) => CalmStop(w, id, reply, row);
    case HostStep(_, name, state) => CalmHost(w, name, state, row);
    case CreateStep(_, r) => CalmCreate(w, r, row);
  }

  ghost predicate Watched(w: World, row: VmRow) {
    WellFormed(w) && SameVm(w, row) && row.id in w.vms && !Stuck(SlotOf(w, row))
  }

  lemma CalmExtend(w: World, id: VmId, now: Time, ttl: Time, row: VmRow)
    requires Watched(w, row) && id != row.id
    ensures Calm(w, Extend(w, id, now, ttl), row)
  {
  }

  lemma CalmDelete(w: World, id: VmId, now: Time, reply: HostReply, row: VmRow)
    requires Watched(w, row) && id != row.id
    ensures Calm(w, Delete(w, id, now, reply), row)
  {
  }

  lemma CalmCall(w: World, p: ProjectId, now: Time, row: VmRow)
    requires Watched(w, row)
    ensures Calm(w, RecordCall(w, p, now), row)
  {
  }

  lemma CalmStart(w: World, id: VmId, reply: CallReply, row: VmRow)
    requires Watched(w, row) && id != row.id
    ensures Calm(w, Start(w, id, reply), row)
  {
  }

  lemma CalmStop(w: World, id: VmId, reply: CallReply, row: VmRow)
    requires Watched(w, row)
    requires id != row.id || (!reply.raises && (reply.after.Some? ==> !IsLive(reply.after.value)))
    ensures Calm(w, Stop(w, id, reply), row)
  {
  }

  lemma CalmHost(w: World, name: DomainName, state: Option<HostState>, row: VmRow)
    requires Watched(w, row)
    requires name != row.libvirtName
             || (state.Some? && !IsLive(state.value) && !state.value.Unknown?)
             || (Observed(state).Unknown? && !w.vms[row.id].state.Deleting? && !w.vms[row.id].state.Pending?)
    ensures Calm(w, HostChange(w, name, state), row)
  {
  }

  lemma CalmCreate(w: World, r: VmRow, row: VmRow)
    requires Watched(w, row)
    ensures Calm(w, Create(w, r), row)
  {
  }
}
