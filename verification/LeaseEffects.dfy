/**
 What a scan does to the world outside its tables, read from what an observer beside it writes
 down.  The safety theorems speak of log entries; the theorems here tie the entries to the
 hypervisor: a domain changes through a scan only by the call its entry names, and over every
 run power is cut only where the safety theorem speaks.
*/
module LeaseEffects {
  import opened Common
  import opened LeaseModel
  import opened LeaseSafety
  import opened LeaseOrder

  // ------------------------------------------------------------------ one visit

  /** The state a visit goes by: the hypervisor's word, or the row's where it has none. */
  ghost predicate GoesBy(slot: Slot, state: PowerState)
    requires slot.row.Some?
  {
    state == if slot.domain.None? || slot.domain == Some(Unknown) then slot.row.value.state else slot.domain.value
  }

  /** Exactly when a visit asks, forces and deletes, on the row, its action, the calls and the answers. */
  lemma VisitDecides(slot: Slot, now: Time, recent: nat, cfg: Config, reply: HostReply, state: PowerState)
    requires slot.row.Some? && GoesBy(slot, state)
    ensures var es := Visit(slot, now, recent, cfg, reply).entries;
            var id := slot.row.value.id;
            var lease := slot.row.value.leaseUntil;
            var idle := lease < now && state in {Running, Paused, Stopping} && recent < cfg.activityThreshold;
            && es != [] && es[0] == Saw(id, now, now <= lease, state) && |es| <= 2
            && (AskedOff(id, now) in es <==> idle && slot.action.None?)
            && ((exists ok :: ForcedOff(id, now, ok) in es) <==>
                  idle && slot.action.Some? && slot.action.value.forceAfter <= now)
            && (ForcedOff(id, now, true) in es ==>
                  slot.domain.Some? ==> !reply.force.raises && reply.force.after !in
                                        {Some(Running), Some(Paused), Some(Stopping)})
            && (ForcedOff(id, now, false) in es ==>
                  slot.domain.Some? && (reply.force.raises || reply.force.after in
                                        {Some(Running), Some(Paused), Some(Stopping)}))
            && (Erased(id, now, true) in es <==>
                  && lease < now && lease < now - cfg.deleteGrace && state in {Stopped, Error, Unknown}
                  && !(slot.row.value.origin == Boxer && slot.stored && reply.storageFails))
            && Erased(id, now, false) !in es
  {
    var v := Visit(slot, now, recent, cfg, reply);
    if |v.entries| == 2 {
      assert v.entries == [v.entries[0], v.entries[1]];
    } else {
      assert v.entries == [v.entries[0]];
    }
  }

  /** What became of a domain, from the entries of one visit to its row. */
  ghost predicate DomainFollows(es: seq<Entry>, id: VmId, now: Time, before: Option<HostState>,
                                after: Option<HostState>, reply: HostReply)
  {
    && (AskedOff(id, now) in es ==> after == if before.Some? then reply.graceful.after else None)
    && (forall ok :: ForcedOff(id, now, ok) in es ==> after == if before.Some? then reply.force.after else None)
    && (Erased(id, now, true) in es ==> after == if before.Some? then reply.undefined else None)
  }

  /** The scan wrote down no call about this row. */
  ghost predicate NoCall(es: seq<Entry>, id: VmId, now: Time) {
    && AskedOff(id, now) !in es
    && (forall ok :: ForcedOff(id, now, ok) !in es)
    && Erased(id, now, true) !in es
  }

  /** A delete that undefines the domain and then cannot remove the files writes nothing down. */
  ghost predicate StorageError(slot: Slot, now: Time, cfg: Config, reply: HostReply)
    requires slot.row.Some?
  {
    && slot.row.value.leaseUntil < now && slot.row.value.leaseUntil < now - cfg.deleteGrace
    && (exists state :: GoesBy(slot, state) && state in {Stopped, Error, Unknown})
    && slot.row.value.origin == Boxer && slot.stored && reply.storageFails
  }

  /** A domain nobody called about is as it was, unless such a delete has undefined it. */
  ghost predicate LeftOrUndefined(slot: Slot, now: Time, cfg: Config, reply: HostReply, after: Option<HostState>)
    requires slot.row.Some?
  {
    after == if StorageError(slot, now, cfg, reply) && slot.domain.Some? then reply.undefined else slot.domain
  }

  lemma VisitMovesDomain(slot: Slot, now: Time, recent: nat, cfg: Config, reply: HostReply)
    requires slot.row.Some?
    ensures var v := Visit(slot, now, recent, cfg, reply);
            var row := slot.row.value;
            && DomainFollows(v.entries, row.id, now, slot.domain, v.slot.domain, reply)
            && (NoCall(v.entries, row.id, now) ==> LeftOrUndefined(slot, now, cfg, reply, v.slot.domain))
  {
    var v := Visit(slot, now, recent, cfg, reply);
    assert GoesBy(slot, EffectiveState(slot.row.value, slot.domain));
    if |v.entries| == 2 {
      assert v.entries == [v.entries[0], v.entries[1]];
    } else {
      assert v.entries == [v.entries[0]];
    }
  }

  /** What a visit leaves of the row, its action and its files, and whom it tells, by its entries. */
  lemma VisitRecords(slot: Slot, now: Time, recent: nat, cfg: Config, reply: HostReply, state: PowerState)
    requires slot.row.Some? && GoesBy(slot, state)
    ensures var v := Visit(slot, now, recent, cfg, reply);
            var row := slot.row.value;
            var retry := now + cfg.forceGrace;
            && (AskedOff(row.id, now) in v.entries ==>
                  && v.slot.row == Some(row.(state := Stopping))
                  && v.slot.action == Some(CleanupAction(row.projectId, now, retry,
                       if slot.domain.Some? && reply.graceful.raises then CallRaised else NoError))
                  && v.events == [Event(Warn, row.projectId, row.id, LeaseExpired(row.leaseUntil)),
                                  Event(Warn, row.projectId, row.id, GracefulRequested(recent, retry))]
                  && v.notices == [])
            && (ForcedOff(row.id, now, false) in v.entries ==>
                  && v.slot.row == Some(row.(state := state))
                  && v.slot.action.Some? && v.slot.action.value.projectId == row.projectId
                  && v.slot.action.value.requestedAt == now && v.slot.action.value.forceAfter == retry
                  && v.slot.action.value.lastError ==
                       (if reply.force.raises || reply.force.after.None? then CallRaised
                        else StillIn(reply.force.after.value))
                  && v.events == [Event(Warn, row.projectId, row.id, LeaseExpired(row.leaseUntil)),
                                  Event(Fault, row.projectId, row.id,
                                        ForceFailed(v.slot.action.value.lastError, retry))]
                  && v.notices == [])
            && (ForcedOff(row.id, now, true) in v.entries ==>
                  && v.slot.action.None?
                  && (v.slot.row == Some(row.(state := Stopped)) || v.slot.row == Some(row.(state := Unknown)))
                  && (v.slot.row.value.state == Unknown <==> v.slot.domain in {None, Some(Unknown)})
                  && v.events == [Event(Warn, row.projectId, row.id, LeaseExpired(row.leaseUntil)),
                                  Event(Warn, row.projectId, row.id, TurnedOff(recent))]
                  && v.notices == [Notice(row.projectId, row.id, now,
                                          if v.slot.domain.Some? then v.slot.domain.value else Unknown, recent)])
            && (Erased(row.id, now, true) in v.entries ==>
                  && v.slot.row.None? && v.slot.action.None?
                  && (v.slot.stored <==> slot.stored && row.origin != Boxer)
                  && v.events == (if slot.action.Some?
                                  then [Event(Info, row.projectId, row.id, HaltedAfterRequest),
                                        Event(Info, row.projectId, row.id, AutoDeleted)]
                                  else [Event(Info, row.projectId, row.id, AutoDeleted)])
                  && v.notices == [])
  {
    var v := Visit(slot, now, recent, cfg, reply);
    if |v.entries| == 2 {
      assert v.entries == [v.entries[0], v.entries[1]];
    } else {
      assert v.entries == [v.entries[0]];
    }
  }

  /** A visit that makes no call keeps the row and its files; only the stored state follows the host. */
  lemma QuietVisit(slot: Slot, now: Time, recent: nat, cfg: Config, reply: HostReply, state: PowerState)
    requires slot.row.Some? && GoesBy(slot, state)
    ensures var v := Visit(slot, now, recent, cfg, reply);
            var row := slot.row.value;
            NoCall(v.entries, row.id, now) ==>
              && v.slot.row == Some(row.(state := state)) && v.slot.stored == slot.stored && v.notices == []
              && v.slot.action == (if row.leaseUntil < now && state !in {Stopped, Error, Unknown} then slot.action
                                   else None)
              && v.events ==
                   (if now <= row.leaseUntil then []
                    else if state in {Running, Paused, Stopping}
                    then [Event(Warn, row.projectId, row.id, LeaseExpired(row.leaseUntil))]
                    else if state in {Stopped, Error, Unknown} && slot.action.Some?
                    then [Event(Info, row.projectId, row.id, HaltedAfterRequest)]
                    else [])
  {
    var v := Visit(slot, now, recent, cfg, reply);
    if |v.entries| == 2 {
      assert v.entries[1] in v.entries;
    }
  }

  // ------------------------------------------------------------------ a whole scan

  lemma {:induction false} InFlatten<T>(order: seq<VmId>, out: VmId -> seq<T>, x: T)
    ensures x in Flatten(order, out) <==> exists id :: id in order && x in out(id)
  {
    if order == [] {
    } else {
      var before, last := order[..|order| - 1], order[|order| - 1];
      InFlatten(before, out, x);
      SplitLast(order);
      if x in Flatten(before, out) {
        var id :| id in before && x in out(id);
        assert id in order;
      }
    }
  }

  lemma PlanEntries(w: World, id: VmId, cfg: Config, now: Time, reply: Replies, e: Entry)
    requires WellFormed(w) && e in Plan(w, cfg, now, reply)(id).entries
    ensures e.vmId == id && e.at == now
  {
    if id in w.vms {
      var row := w.vms[id];
      var v := VisitOf(w, row, cfg, now, reply);
      if |v.entries| == 2 {
        assert v.entries == [v.entries[0], v.entries[1]];
      } else {
        assert v.entries == [v.entries[0]];
      }
    }
  }

  lemma ScanAppends(w: World, order: seq<VmId>, cfg: Config, now: Time, reply: Replies)
    requires WellFormed(w) && IsListing(w, order)
    ensures |w.history| <= |Scan(w, order, cfg, now, reply).history|
    ensures Scan(w, order, cfg, now, reply).history[..|w.history|] == w.history
    ensures Scan(w, order, cfg, now, reply).history[|w.history|..]
            == Flatten(order, Entries(Plan(w, cfg, now, reply)))
  {
    ScanEmitsEach(w, order, cfg, now, reply);
  }

  /** The new entries about one row are those of the visit to it. */
  lemma EntriesOfRow(w: World, order: seq<VmId>, cfg: Config, now: Time, reply: Replies, e: Entry)
    requires WellFormed(w) && IsListing(w, order)
    ensures var s := Scan(w, order, cfg, now, reply);
            && |w.history| <= |s.history|
            && (e in s.history[|w.history|..] <==>
                  e.vmId in w.vms && e in Plan(w, cfg, now, reply)(e.vmId).entries)
  {
    var plan := Plan(w, cfg, now, reply);
    ScanAppends(w, order, cfg, now, reply);
    InFlatten(order, Entries(plan), e);
    if id :| id in order && e in Entries(plan)(id) {
      PlanEntries(w, id, cfg, now, reply, e);
    }
  }

  lemma SameEntries(w: World, order: seq<VmId>, cfg: Config, now: Time, reply: Replies, id: VmId)
    requires WellFormed(w) && IsListing(w, order) && id in w.vms
    ensures |w.history| <= |Scan(w, order, cfg, now, reply).history|
    ensures var es := Scan(w, order, cfg, now, reply).history[|w.history|..];
            forall e: Entry :: e.vmId == id ==> (e in es <==> e in VisitOf(w, w.vms[id], cfg, now, reply).entries)
  {
    ScanAppends(w, order, cfg, now, reply);
    forall e: Entry | e.vmId == id
      ensures e in Scan(w, order, cfg, now, reply).history[|w.history|..]
              <==> e in VisitOf(w, w.vms[id], cfg, now, reply).entries
    {
      EntriesOfRow(w, order, cfg, now, reply, e);
    }
  }

  lemma ScanMovesDomain(w: World, order: seq<VmId>, cfg: Config, now: Time, reply: Replies, id: VmId)
    requires WellFormed(w) && IsListing(w, order) && id in w.vms
    ensures var s := Scan(w, order, cfg, now, reply);
            var row := w.vms[id];
            var before, after := Lookup(w.domains, row.libvirtName), Lookup(s.domains, row.libvirtName);
            && |w.history| <= |s.history|
            && DomainFollows(s.history[|w.history|..], id, now, before, after, reply(row.libvirtName))
            && (NoCall(s.history[|w.history|..], id, now) ==>
                  LeftOrUndefined(SlotOf(w, row), now, cfg, reply(row.libvirtName), after))
  {
    hide Visit, CallsSince, LeftOrUndefined, Scan, StorageError;
    var row := w.vms[id];
    ScanAppends(w, order, cfg, now, reply);
    SameEntries(w, order, cfg, now, reply, id);
    SlotAfterScan(w, order, cfg, now, reply, id);
    VisitMovesDomain(SlotOf(w, row), now, CallsSince(w.callLog, row.projectId, now - cfg.activityWindow), cfg,
                     reply(row.libvirtName));
  }

  lemma SlotAfterScan(w: World, order: seq<VmId>, cfg: Config, now: Time, reply: Replies, id: VmId)
    requires WellFormed(w) && IsListing(w, order) && id in w.vms
    ensures SlotOf(Scan(w, order, cfg, now, reply), w.vms[id]) == VisitOf(w, w.vms[id], cfg, now, reply).slot
  {
    hide Visit, CallsSince, ScanRows;
    ScanVisitsEach(w, order, cfg, now, reply);
    assert SlotOf(ScanRows(w, order, cfg, now, reply), w.vms[id]) == VisitOf(w, w.vms[id], cfg, now, reply).slot;
  }

  /**
   A scan moves domains only as it writes down: asked off, the domain is what the graceful
   stop left; forced off, what the forced stop left; deleted, what undefining left.  With none
   of these it is as before, unless a delete undefined it and then could not remove the files.
   Domains that belong to no row stay as they are.
  */
  lemma ScanMovesDomainsAsLogged(w: World, order: seq<VmId>, cfg: Config, now: Time, reply: Replies, name: DomainName)
    requires WellFormed(w) && IsListing(w, order)
    ensures var s := Scan(w, order, cfg, now, reply);
            var before, after := Lookup(w.domains, name), Lookup(s.domains, name);
            && |w.history| <= |s.history|
            && (forall id :: id in w.vms && w.vms[id].libvirtName == name ==>
                  var es := s.history[|w.history|..];
                  && DomainFollows(es, id, now, before, after, reply(name))
                  && (NoCall(es, id, now) ==> LeftOrUndefined(SlotOf(w, w.vms[id]), now, cfg, reply(name), after)))
            && ((forall id :: id in w.vms ==> w.vms[id].libvirtName != name) ==> after == before)
  {
    var s := Scan(w, order, cfg, now, reply);
    ScanVisitsEach(w, order, cfg, now, reply);
    ScanAppends(w, order, cfg, now, reply);
    forall id | id in w.vms && w.vms[id].libvirtName == name
      ensures var es := s.history[|w.history|..];
              var before, after := Lookup(w.domains, name), Lookup(s.domains, name);
              && DomainFollows(es, id, now, before, after, reply(name))
              && (NoCall(es, id, now) ==> LeftOrUndefined(SlotOf(w, w.vms[id]), now, cfg, reply(name), after))
    {
      ScanMovesDomain(w, order, cfg, now, reply, id);
    }
  }

  // ------------------------------------------------------------------ over runs

  /** Entry `k` of `h` is a forced stop of `id` at `now`, and a request stands for it. */
  ghost predicate ForcedWithCause(h: seq<Entry>, k: int, id: VmId, now: Time, grace: Time) {
    && 0 <= k < |h|
    && (h[k] == ForcedOff(id, now, true) || h[k] == ForcedOff(id, now, false))
    && exists j :: Stands(h, j, k, id, now, grace)
  }

  /** The three ways a scan may move the domain of a row from `before` to `after`. */
  ghost predicate MovedLawfully(h: seq<Entry>, n: nat, row: VmRow, now: Time, cfg: Config, reply: HostReply,
                                after: Option<HostState>)
    requires n <= |h|
  {
    && row.leaseUntil < now
    && (|| (AskedOff(row.id, now) in h[n..] && after == reply.graceful.after)
        || (after == reply.force.after
            && exists k :: n <= k && ForcedWithCause(h, k, row.id, now, cfg.forceGrace))
        || (row.leaseUntil < now - cfg.deleteGrace && after == reply.undefined))
  }

  lemma ForcedEntryHasCause(h: seq<Entry>, n: nat, id: VmId, now: Time, ok: bool, grace: Time)
    requires n <= |h| && AllJustified(h, grace) && ForcedOff(id, now, ok) in h[n..]
    ensures exists k :: n <= k && ForcedWithCause(h, k, id, now, grace)
  {
    var i :| 0 <= i < |h| - n && h[n..][i] == ForcedOff(id, now, ok);
    var k := n + i;
    assert h[k] == ForcedOff(id, now, ok);
    assert ForceJustified(h, k, grace);
    assert ForcedWithCause(h, k, id, now, grace);
  }

  lemma CallsNeedExpiredLease(w: World, id: VmId, cfg: Config, now: Time, reply: Replies)
    requires WellFormed(w) && id in w.vms
    ensures !NoCall(VisitOf(w, w.vms[id], cfg, now, reply).entries, id, now) ==> w.vms[id].leaseUntil < now
    ensures Erased(id, now, true) in VisitOf(w, w.vms[id], cfg, now, reply).entries ==>
              w.vms[id].leaseUntil < now - cfg.deleteGrace
  {
    hide CallsSince;
    var row := w.vms[id];
    var slot := SlotOf(w, row);
    var state := if slot.domain.None? || slot.domain == Some(Unknown) then row.state else slot.domain.value;
    VisitDecides(slot, now, CallsSince(w.callLog, row.projectId, now - cfg.activityWindow), cfg,
                 reply(row.libvirtName), state);
  }

  lemma ScanMovesLawfully(w: World, order: seq<VmId>, cfg: Config, now: Time, reply: Replies, id: VmId)
    requires WellFormed(w) && IsListing(w, order) && id in w.vms
    requires AllJustified(Scan(w, order, cfg, now, reply).history, cfg.forceGrace)
    ensures var s := Scan(w, order, cfg, now, reply);
            var row := w.vms[id];
            && |w.history| <= |s.history|
            && (Lookup(s.domains, row.libvirtName) != Lookup(w.domains, row.libvirtName) ==>
                  && row.libvirtName in w.domains
                  && MovedLawfully(s.history, |w.history|, row, now, cfg, reply(row.libvirtName),
                                   Lookup(s.domains, row.libvirtName)))
  {
    hide Scan, VisitOf, Stands;
    var s := Scan(w, order, cfg, now, reply);
    var row := w.vms[id];
    var before, after := Lookup(w.domains, row.libvirtName), Lookup(s.domains, row.libvirtName);
    ScanMovesDomain(w, order, cfg, now, reply, id);
    SameEntries(w, order, cfg, now, reply, id);
    CallsNeedExpiredLease(w, id, cfg, now, reply);
    var es := s.history[|w.history|..];
    if ok :| after != before && ForcedOff(id, now, ok) in es {
      ForcedEntryHasCause(s.history, |w.history|, id, now, ok, cfg.forceGrace);
    }
  }

  /**
   Over every run, a scan that changes what the hypervisor reports for a domain found the lease
   of its row run out, and did one of three things: it asked the guest to shut down, and the
   domain is what that call left; it forced the domain off, and a request of its own, a force
   grace old and never called off, stands for that entry; or the delete grace was over too and
   the domain was undefined.
  */
  lemma {:induction false} ScansCutPowerLawfully(w: World, cfg: Config, start: Time, steps: seq<Step>,
                                                 name: DomainName)
    requires Initial(w) && IsRun(w, cfg, start, steps)
    requires steps != [] && steps[|steps| - 1].ScanStep?
    ensures var before, after := Run(w, cfg, steps[..|steps| - 1]), Run(w, cfg, steps);
            var scan := steps[|steps| - 1];
            && |before.history| <= |after.history|
            && (Lookup(after.domains, name) != Lookup(before.domains, name) ==>
                  exists id :: id in before.vms && before.vms[id].libvirtName == name && name in before.domains
                               && MovedLawfully(after.history, |before.history|, before.vms[id], scan.now, cfg,
                                                scan.replies(name), Lookup(after.domains, name)))
  {
    hide Scan, MovedLawfully;
    var before := Run(w, cfg, steps[..|steps| - 1]);
    var scan := steps[|steps| - 1];
    RunKeepsInv(w, cfg, start, steps[..|steps| - 1]);
    RunKeepsInv(w, cfg, start, steps);
    ScanMovesDomainsAsLogged(before, scan.order, cfg, scan.now, scan.replies, name);
    if id :| id in before.vms && before.vms[id].libvirtName == name {
      assert before.vms[id].id == id;
      ScanMovesLawfully(before, scan.order, cfg, scan.now, scan.replies, id);
    }
  }

  // ------------------------------------------------------------------ busy projects

  /** The positions in the log of the project's calls from `since` on. */
  ghost function RecentCalls(log: seq<Call>, p: ProjectId, since: Time): set<int> {
    set i | 0 <= i < |log| && log[i].projectId == p && log[i].calledAt >= since
  }

  lemma {:induction false} CallsAreCounted(log: seq<Call>, p: ProjectId, since: Time)
    ensures CallsSince(log, p, since) == |RecentCalls(log, p, since)|
  {
    if log == [] {
      assert RecentCalls(log, p, since) == {};
    } else {
      var n := |log| - 1;
      CallsAreCounted(log[..n], p, since);
      var earlier := RecentCalls(log[..n], p, since);
      if log[n].projectId == p && log[n].calledAt >= since {
        assert RecentCalls(log, p, since) == earlier + {n};
      } else {
        assert RecentCalls(log, p, since) == earlier;
      }
    }
  }

  lemma BusyVisit(slot: Slot, now: Time, recent: nat, cfg: Config, reply: HostReply, state: HostState)
    requires slot.row.Some? && slot.row.value.leaseUntil < now && state in {Running, Paused, Stopping}
    requires slot.domain == Some(state) && recent >= cfg.activityThreshold
    ensures var v := Visit(slot, now, recent, cfg, reply);
            v.slot == slot.(row := Some(slot.row.value.(state := state))) && NoCall(v.entries, slot.row.value.id, now)
  {
  }

  /**
   A VM whose project has made enough calls within the window is left running by the scan,
   whatever its lease: its domain and any pending action stay, and its row only takes over the
   state the hypervisor reports.
  */
  lemma BusyProjectKeepsItsVm(w: World, order: seq<VmId>, cfg: Config, now: Time, reply: Replies, id: VmId,
                              state: HostState)
    requires WellFormed(w) && IsListing(w, order) && id in w.vms
    requires w.vms[id].leaseUntil < now && state in {Running, Paused, Stopping}
    requires Lookup(w.domains, w.vms[id].libvirtName) == Some(state)
    requires |RecentCalls(w.callLog, w.vms[id].projectId, now - cfg.activityWindow)| >= cfg.activityThreshold
    ensures var s := Scan(w, order, cfg, now, reply);
            && Lookup(s.vms, id) == Some(w.vms[id].(state := state))
            && Lookup(s.actions, id) == Lookup(w.actions, id)
            && Lookup(s.domains, w.vms[id].libvirtName) == Some(state)
            && |w.history| <= |s.history| && NoCall(s.history[|w.history|..], id, now)
  {
    hide CallsSince, Visit;
    var row := w.vms[id];
    CallsAreCounted(w.callLog, row.projectId, now - cfg.activityWindow);
    BusyVisit(SlotOf(w, row), now, CallsSince(w.callLog, row.projectId, now - cfg.activityWindow), cfg,
              reply(row.libvirtName), state);
    ScanVisitsEach(w, order, cfg, now, reply);
    SameEntries(w, order, cfg, now, reply, id);
    assert SlotOf(ScanRows(w, order, cfg, now, reply), row) == VisitOf(w, row, cfg, now, reply).slot;
  }

  /** Pruning the log forgets no call that can still count. */
  lemma {:induction false} PruningKeepsCounts(log: seq<Call>, p: ProjectId, cut: Time, since: Time)
    requires cut <= since
    ensures CallsSince(CallsKept(log, cut), p, since) == CallsSince(log, p, since)
  {
    if log == [] {
    } else {
      var before, last := log[..|log| - 1], log[|log| - 1];
      PruningKeepsCounts(before, p, cut, since);
      if last.calledAt >= cut {
        assert CallsKept(log, cut)[..|CallsKept(log, cut)| - 1] == CallsKept(before, cut);
      } else {
        assert CallsKept(log, cut) == CallsKept(before, cut);
      }
    }
  }

  /** What pruning keeps is what is recent enough, as often as it was logged. */
  lemma {:induction false} PruningKeepsTheRecent(log: seq<Call>, cut: Time, call: Call)
    ensures multiset(CallsKept(log, cut))[call] == if call.calledAt >= cut then multiset(log)[call] else 0
  {
    if log == [] {
    } else {
      SplitLast(log);
      PruningKeepsTheRecent(log[..|log| - 1], cut, call);
    }
  }

  /** The steps of a run in which project `p` called in at `since` or later. */
  ghost function CallsMade(steps: seq<Step>, p: ProjectId, since: Time): set<int> {
    set i | 0 <= i < |steps| && steps[i].CallStep? && steps[i].projectId == p && steps[i].now >= since
  }

  lemma {:induction false} OneMoreStep(steps: seq<Step>, p: ProjectId, since: Time)
    requires steps != []
    ensures var before, last := steps[..|steps| - 1], steps[|steps| - 1];
            |CallsMade(steps, p, since)|
            == |CallsMade(before, p, since)|
               + if last.CallStep? && last.projectId == p && last.now >= since then 1 else 0
  {
    var n := |steps| - 1;
    if steps[n].CallStep? && steps[n].projectId == p && steps[n].now >= since {
      assert CallsMade(steps, p, since) == CallsMade(steps[..n], p, since) + {n};
    } else {
      assert CallsMade(steps, p, since) == CallsMade(steps[..n], p, since);
    }
  }

  /**
   Over every run, the calls a scan counts for a project are those it has made, as long as the
   call log is kept at least as long as the window the scanner looks back.
  */
  lemma {:induction false} RunCountsCalls(w: World, cfg: Config, start: Time, steps: seq<Step>, p: ProjectId,
                                          since: Time)
    requires w.callLog == [] && WellFormed(w) && IsRun(w, cfg, start, steps)
    requires Clock(start, steps) - cfg.callRetention <= since
    ensures CallsSince(Run(w, cfg, steps).callLog, p, since) == |CallsMade(steps, p, since)|
  {
    if steps == [] {
      assert CallsMade(steps, p, since) == {};
    } else {
      var before, last := steps[..|steps| - 1], steps[|steps| - 1];
      RunCountsCalls(w, cfg, start, before, p, since);
      OneMoreStep(steps, p, since);
      StepCountsCalls(Run(w, cfg, before), cfg, last, p, since);
    }
  }

  lemma StepCountsCalls(w: World, cfg: Config, step: Step, p: ProjectId, since: Time)
    requires step.ScanStep? ==> step.now - cfg.callRetention <= since
    ensures CallsSince(Apply(w, cfg, step).callLog, p, since)
            == CallsSince(w.callLog, p, since)
               + if step.CallStep? && step.projectId == p && step.now >= since then 1 else 0
  {
    if step.ScanStep? {
      ScanRowsKeepLog(w, step.order, cfg, step.now, step.replies);
      PruningKeepsCounts(w.callLog, p, step.now - cfg.callRetention, since);
    } else if step.CallStep? {
      assert RecordCall(w, step.projectId, step.now).callLog[..|w.callLog|] == w.callLog;
    }
  }

  lemma {:induction false} ScanRowsKeepLog(w: World, order: seq<VmId>, cfg: Config, now: Time, reply: Replies)
    ensures ScanRows(w, order, cfg, now, reply).callLog == w.callLog
  {
    if order == [] {
    } else {
      ScanRowsKeepLog(w, order[..|order| - 1], cfg, now, reply);
    }
  }

  // ------------------------------------------------------------------ one notice per forced stop

  /** Whom and when the notices name. */
  ghost function Named(notices: seq<Notice>): seq<(VmId, Time)> {
    seq(|notices|, i requires 0 <= i < |notices| => (notices[i].vmId, notices[i].forcedAt))
  }

  /** The forced stops that succeeded, in order. */
  ghost function PowerCuts(h: seq<Entry>): seq<(VmId, Time)> {
    if h == [] then []
    else PowerCuts(h[..|h| - 1])
         + if h[|h| - 1].ForcedOff? && h[|h| - 1].succeeded then [(h[|h| - 1].vmId, h[|h| - 1].at)] else []
  }

  lemma {:induction false} PowerCutsAppend(a: seq<Entry>, b: seq<Entry>)
    ensures PowerCuts(a + b) == PowerCuts(a) + PowerCuts(b)
  {
    if b == [] {
      assert a + b == a;
    } else {
      assert (a + b)[..|a + b| - 1] == a + b[..|b| - 1];
      PowerCutsAppend(a, b[..|b| - 1]);
    }
  }

  lemma VisitNotifies(slot: Slot, now: Time, recent: nat, cfg: Config, reply: HostReply)
    requires slot.row.Some?
    ensures var v := Visit(slot, now, recent, cfg, reply);
            && PowerCuts(v.entries) == Named(v.notices)
            && forall n :: n in v.notices ==> n.projectId == slot.row.value.projectId
  {
    var v := Visit(slot, now, recent, cfg, reply);
    assert PowerCuts([v.entries[0]]) == [];
    if |v.entries| == 2 {
      PowerCutsAppend([v.entries[0]], [v.entries[1]]);
      assert v.entries == [v.entries[0]] + [v.entries[1]];
    } else {
      assert v.entries == [v.entries[0]];
    }
  }

  lemma VisitRowNotifies(w: World, id: VmId, cfg: Config, now: Time, reply: Replies)
    requires PowerCuts(w.history) == Named(w.notices)
    ensures var s := VisitRow(w, id, cfg, now, reply); PowerCuts(s.history) == Named(s.notices)
  {
    hide Visit, CallsSince, PowerCuts;
    if id in w.vms && w.vms[id].id == id {
      var row := w.vms[id];
      var v := VisitOf(w, row, cfg, now, reply);
      VisitNotifies(SlotOf(w, row), now, CallsSince(w.callLog, row.projectId, now - cfg.activityWindow), cfg,
                    reply(row.libvirtName));
      PowerCutsAppend(w.history, v.entries);
      assert Named(w.notices + v.notices) == Named(w.notices) + Named(v.notices);
    }
  }

  lemma {:induction false} ScanRowsNotify(w: World, order: seq<VmId>, cfg: Config, now: Time, reply: Replies)
    requires PowerCuts(w.history) == Named(w.notices)
    ensures var s := ScanRows(w, order, cfg, now, reply); PowerCuts(s.history) == Named(s.notices)
  {
    if order == [] {
    } else {
      ScanRowsNotify(w, order[..|order| - 1], cfg, now, reply);
      VisitRowNotifies(ScanRows(w, order[..|order| - 1], cfg, now, reply), order[|order| - 1], cfg, now, reply);
    }
  }

  lemma StepNotifies(w: World, cfg: Config, step: Step)
    requires PowerCuts(w.history) == Named(w.notices)
    ensures var s := Apply(w, cfg, step); PowerCuts(s.history) == Named(s.notices)
  {
    if step.ScanStep? {
      ScanRowsNotify(w, step.order, cfg, step.now, step.replies);
    } else if step.DeleteStep? {
      PowerCutsAppend(w.history, [Erased(step.vmId, step.now, false)]);
      assert PowerCuts([Erased(step.vmId, step.now, false)]) == [];
      assert Delete(w, step.vmId, step.now, step.reply).notices == w.notices;
    }
  }

  /** Over every run the notices are, one for one and in order, the forced stops that succeeded. */
  lemma {:induction false} EveryForcedStopIsNotified(w: World, cfg: Config, steps: seq<Step>)
    requires w.history == [] && w.notices == []
    ensures var s := Run(w, cfg, steps); PowerCuts(s.history) == Named(s.notices)
  {
    if steps == [] {
    } else {
      EveryForcedStopIsNotified(w, cfg, steps[..|steps| - 1]);
      StepNotifies(Run(w, cfg, steps[..|steps| - 1]), cfg, steps[|steps| - 1]);
    }
  }

  // ------------------------------------------------------------------ what the handlers do

  /** Extending sets the lease of one row, to the later of lease and now plus the time asked for. */
  lemma ExtendingSetsTheLease(w: World, id: VmId, now: Time, ttl: Time)
    requires id in w.vms
    ensures var s := Extend(w, id, now, ttl);
            && s == w.(vms := s.vms) && s.vms.Keys == w.vms.Keys
            && (forall other :: other in w.vms && other != id ==> s.vms[other] == w.vms[other])
            && s.vms[id] == w.vms[id].(leaseUntil := s.vms[id].leaseUntil)
            && s.vms[id].leaseUntil >= w.vms[id].leaseUntil + ttl && s.vms[id].leaseUntil >= now + ttl
            && s.vms[id].leaseUntil in {w.vms[id].leaseUntil + ttl, now + ttl}
  {
  }

  /**
   A user's delete undefines the domain and, where it can, removes the files of a VM Boxer
   created and with them the row and its action; the files of an adopted or imported VM stay.
   If the files cannot be removed, the row stays, marked as deleting, with its action.
  */
  lemma DeletingKeepsForeignFiles(w: World, id: VmId, now: Time, reply: HostReply)
    requires WellFormed(w) && id in w.vms
    ensures var s := Delete(w, id, now, reply);
            var row := w.vms[id];
            var files := (row.projectId, id);
            var stuck := row.origin == Boxer && files in w.storage && reply.storageFails;
            && Lookup(s.domains, row.libvirtName) ==
                 (if row.libvirtName in w.domains then reply.undefined else None)
            && (row.origin in {Adopted, Imported} ==> s.storage == w.storage && id !in s.vms)
            && (stuck ==> s.vms == w.vms[id := row.(state := Deleting)] && s.actions == w.actions
                          && s.storage == w.storage && s.history == w.history && s.events == w.events)
            && (!stuck ==> s.vms == w.vms - {id} && s.actions == w.actions - {id}
                           && s.history == w.history + [Erased(id, now, false)]
                           && s.events == w.events + [Event(Info, row.projectId, id, DeletedByUser)])
            && (!stuck && row.origin == Boxer ==> s.storage == w.storage - {files})
            && (forall name :: name != row.libvirtName ==> Lookup(s.domains, name) == Lookup(w.domains, name))
            && s.callLog == w.callLog && s.notices == w.notices
  {
  }

  /** A start that does not raise and a stop that does not raise are stored, whatever the guest did. */
  lemma PowerCallsAreStored(w: World, id: VmId, reply: CallReply)
    requires WellFormed(w) && id in w.vms
    ensures var row := w.vms[id];
            var known := row.libvirtName in w.domains;
            var up, down := Start(w, id, reply), Stop(w, id, reply);
            && up == w.(vms := up.vms, domains := up.domains) && down == w.(vms := down.vms, domains := down.domains)
            && up.vms == (if known && !reply.raises then w.vms[id := row.(state := Running)] else w.vms)
            && down.vms == (if known && reply.raises then w.vms else w.vms[id := row.(state := Stopped)])
            && (known ==> Lookup(up.domains, row.libvirtName) == reply.after
                          && Lookup(down.domains, row.libvirtName) == reply.after)
            && (!known ==> up.domains == w.domains && down.domains == w.domains)
            && (forall name :: name != row.libvirtName ==> Lookup(up.domains, name) == Lookup(w.domains, name)
                                                           && Lookup(down.domains, name) == Lookup(w.domains, name))
  {
  }

  /** A new VM runs from the start and has its files; a clash of ids or domain names creates nothing. */
  lemma CreatingTakesNewNames(w: World, row: VmRow)
    ensures var s := Create(w, row);
            var clash := row.id in w.vms || exists id :: id in w.vms && w.vms[id].libvirtName == row.libvirtName;
            && (clash ==> s == w)
            && (!clash ==>
                  && s == w.(vms := s.vms, domains := s.domains, storage := s.storage)
                  && s.vms == w.vms[row.id := row] && s.domains == w.domains[row.libvirtName := Running]
                  && s.storage == w.storage + {(row.projectId, row.id)})
  {
  }
}
