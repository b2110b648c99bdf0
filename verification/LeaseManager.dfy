/**
 The scanner and the lease handlers as they update the database, the hypervisor and the
 storage one statement at a time, each proved to compute its step of `LeaseModel`.
*/
module LeaseManager {
  import opened Common
  import opened LeaseModel
  import LeaseOrder

  class Manager {
    const cfg: Config
    var vms: map<VmId, VmRow>
    var actions: map<VmId, CleanupAction>
    var callLog: seq<Call>
    var domains: map<DomainName, HostState>
    var storage: set<(ProjectId, VmId)>
    var events: seq<Event>
    var notices: seq<Notice>
    ghost var history: seq<Entry>

    ghost function State(): World
      reads this
    {
      World(vms, actions, callLog, domains, storage, events, notices, history)
    }

    constructor (cfg: Config)
      ensures this.cfg == cfg && State() == World(map[], map[], [], map[], {}, [], [], [])
    {
      this.cfg := cfg;
      vms, actions, callLog, domains, storage := map[], map[], [], map[], {};
      events, notices, history := [], [], [];
    }

    // ---------------------------------------------------------------- hypervisor and storage

    method GetState(name: DomainName) returns (s: HostState)
      ensures s == Observed(Lookup(domains, name))
    {
      if name in domains { s := domains[name]; } else { s := Unknown; }
    }

    method StopDomain(name: DomainName, reply: CallReply) returns (raised: bool)
      modifies this`domains
      ensures raised == StopRaises(Lookup(old(domains), name), reply)
      ensures domains == Assign(old(domains), name, AfterStop(Lookup(old(domains), name), reply))
    {
      if name !in domains {
        raised := false;
        return;
      }
      SetDomain(name, reply.after);
      raised := reply.raises;
    }

    method UndefineDomain(name: DomainName, after: Option<HostState>)
      modifies this`domains
      ensures domains == Assign(old(domains), name, if name in old(domains) then after else None)
    {
      if name in domains {
        SetDomain(name, after);
      }
    }

    method SetDomain(name: DomainName, after: Option<HostState>)
      modifies this`domains
      ensures domains == Assign(old(domains), name, after)
    {
      match after
      case Some(s) => domains := domains[name := s];
      case None => domains := domains - {name};
    }

    /** Removing a directory that is not there succeeds. */
    method DeleteVmStorage(projectId: ProjectId, id: VmId, fails: bool) returns (raised: bool)
      modifies this`storage
      ensures raised == ((projectId, id) in old(storage) && fails)
      ensures storage == if raised then old(storage) else old(storage) - {(projectId, id)}
    {
      raised := (projectId, id) in storage && fails;
      if !raised {
        storage := storage - {(projectId, id)};
      }
    }

    // ---------------------------------------------------------------- the scan

    method RequestGracefulShutdown(row: VmRow, now: Time, recent: nat, reply: HostReply)
      requires row.id in vms
      modifies this
      ensures State() == Put(old(State()), row,
                             RequestGraceful(SlotOf(old(State()), row), row, now, recent, cfg, reply))
    {
      var forceAfter := now + cfg.forceGrace;
      history := history + [AskedOff(row.id, now)];
      var raised := StopDomain(row.libvirtName, reply.graceful);
      var error := if raised then CallRaised else NoError;
      vms := vms[row.id := row.(state := Stopping)];
      actions := actions[row.id := CleanupAction(row.projectId, now, forceAfter, error)];
      events := events + [EventFor(Warn, row, GracefulRequested(recent, forceAfter))];
    }

    method ForceOff(row: VmRow, now: Time, recent: nat, reply: HostReply)
      requires row.id in vms && vms[row.id] == row
      modifies this
      ensures State() == Put(old(State()), row, ForceShutdown(SlotOf(old(State()), row), row, now, recent, cfg, reply))
    {
      var raised := StopDomain(row.libvirtName, reply.force);
      var live := GetState(row.libvirtName);
      if raised || IsLive(live) {
        var retryAfter := now + cfg.forceGrace;
        var lastError := if raised then CallRaised else StillIn(live);
        actions := actions[row.id := CleanupAction(row.projectId, now, retryAfter, lastError)];
        events := events + [EventFor(Fault, row, ForceFailed(lastError, retryAfter))];
        history := history + [ForcedOff(row.id, now, false)];
        return;
      }
      var finalState := if live == Unknown then Unknown else Stopped;
      vms := vms[row.id := row.(state := finalState)];
      actions := actions - {row.id};
      events := events + [EventFor(Warn, row, TurnedOff(recent))];
      notices := notices + [Notice(row.projectId, row.id, now, live, recent)];
      history := history + [ForcedOff(row.id, now, true)];
    }

    method CleanupRunningStaleVm(row: VmRow, now: Time, reply: HostReply)
      requires row.id in vms && vms[row.id] == row
      modifies this
      ensures State() == Put(old(State()), row,
                             CleanupRunning(SlotOf(old(State()), row), row, now,
                                            CallsSince(old(callLog), row.projectId, now - cfg.activityWindow),
                                            cfg, reply))
    {
      PutNothing(State(), row);
      var recent := CallsSince(callLog, row.projectId, now - cfg.activityWindow);
      if recent >= cfg.activityThreshold {
        return;
      }
      if row.id !in actions {
        RequestGracefulShutdown(row, now, recent, reply);
        return;
      }
      if now >= actions[row.id].forceAfter {
        ForceOff(row, now, recent, reply);
      }
    }

    method AutoDeleteVm(row: VmRow, now: Time, reply: HostReply)
      requires row.id in vms && vms[row.id] == row && row.id !in actions
      modifies this
      ensures State() == Put(old(State()), row, AutoDelete(SlotOf(old(State()), row), row, now, reply))
    {
      UndefineDomain(row.libvirtName, reply.undefined);
      if row.origin.Boxer? {
        var failed := DeleteVmStorage(row.projectId, row.id, reply.storageFails);
        if failed {
          return;
        }
      }
      actions := actions - {row.id};
      vms := vms - {row.id};
      events := events + [EventFor(Info, row, AutoDeleted)];
      history := history + [Erased(row.id, now, true)];
    }

    method RetireHaltedVm(row: VmRow, now: Time, reply: HostReply)
      requires row.id in vms && vms[row.id] == row
      modifies this
      ensures State() == Put(old(State()), row, RetireHalted(SlotOf(old(State()), row), row, now, cfg, reply))
    {
      ghost var w := State();
      ghost var closed := Visited(SlotOf(w, row).(action := None),
                                  if row.id in actions then [EventFor(Info, row, HaltedAfterRequest)] else [], [], []);
      if row.id in actions {
        actions := actions - {row.id};
        events := events + [EventFor(Info, row, HaltedAfterRequest)];
      }
      assert State() == Put(w, row, closed);
      if row.leaseUntil < now - cfg.deleteGrace {
        PutSetsOwn(w, row, closed);
        PutTwice(w, row, closed, AutoDelete(closed.slot, row, now, reply));
        AutoDeleteVm(row, now, reply);
      }
    }

    /** The branches of the scan's loop, once the row's state is up to date. */
    method JudgeRow(row: VmRow, now: Time, reply: HostReply)
      requires row.id in vms && vms[row.id] == row
      modifies this
      ensures State() == Put(old(State()), row,
                             Judge(SlotOf(old(State()), row), row, now,
                                   CallsSince(old(callLog), row.projectId, now - cfg.activityWindow), cfg, reply))
    {
      ghost var w := State();
      ghost var slot := SlotOf(w, row);
      var leaseExpired := row.leaseUntil < now;
      if !leaseExpired {
        actions := actions - {row.id};
        return;
      }
      if IsLive(row.state) {
        ghost var noted := Visited(slot, [EventFor(Warn, row, LeaseExpired(row.leaseUntil))], [], []);
        events := events + [EventFor(Warn, row, LeaseExpired(row.leaseUntil))];
        assert State() == Put(w, row, noted);
        PutSetsOwn(w, row, noted);
        ghost var recent := CallsSince(callLog, row.projectId, now - cfg.activityWindow);
        PutTwice(w, row, noted, CleanupRunning(slot, row, now, recent, cfg, reply));
        CleanupRunningStaleVm(row, now, reply);
      } else if IsHalted(row.state) {
        RetireHaltedVm(row, now, reply);
      } else {
        PutNothing(w, row);
      }
    }

    /** The body of the scan's loop for one listed row. */
    method ScanRow(listed: VmRow, now: Time, reply: HostReply)
      requires listed.id in vms && vms[listed.id] == listed
      modifies this
      ensures State() == Put(old(State()), listed,
                             Visit(SlotOf(old(State()), listed), now,
                                   CallsSince(old(callLog), listed.projectId, now - cfg.activityWindow), cfg, reply))
    {
      hide Judge, CallsSince;
      ghost var w := State();
      ghost var slot := SlotOf(w, listed);
      var row := listed;
      var liveState := GetState(row.libvirtName);
      if liveState != Unknown && liveState != row.state {
        vms := vms[row.id := row.(state := liveState)];
        row := row.(state := liveState);
      }
      history := history + [Saw(row.id, now, !(row.leaseUntil < now), row.state)];
      ghost var seen := Visited(slot.(row := Some(row)), [], [], [Saw(row.id, now, now <= row.leaseUntil, row.state)]);
      assert State() == Put(w, listed, seen);
      PutSetsOwn(w, listed, seen);
      ghost var recent := CallsSince(callLog, row.projectId, now - cfg.activityWindow);
      PutTwice(w, listed, seen, Judge(seen.slot, row, now, recent, cfg, reply));
      JudgeRow(row, now, reply);
    }

    /**
     One pass over the table.  The rows are read once, before the loop; `order` is the order
     the database lists them in.
    */
    method Scan(now: Time, order: seq<VmId>, replies: Replies)
      requires WellFormed(State()) && IsListing(State(), order)
      modifies this
      ensures State() == LeaseModel.Scan(old(State()), order, cfg, now, replies)
    {
      ghost var w := State();
      var table := vms;
      var rows := seq(|order|, i requires 0 <= i < |order| && order[i] in table => table[order[i]]);
      for k := 0 to |rows|
        invariant |rows| == |order| && forall i :: 0 <= i < |rows| ==> order[i] in w.vms && rows[i] == w.vms[order[i]]
        invariant State() == ScanRows(w, order[..k], cfg, now, replies)
      {
        RowsAheadAreFresh(w, order, k, now, replies);
        OneRowFurther(w, order, k, now, replies);
        ScanRow(rows[k], now, replies(rows[k].libvirtName));
      }
      assert order[..|order|] == order;
      callLog := CallsKept(callLog, now - cfg.callRetention);
    }

    lemma OneRowFurther(w: World, order: seq<VmId>, k: nat, now: Time, replies: Replies)
      requires k < |order|
      requires var s := ScanRows(w, order[..k], cfg, now, replies);
               order[k] in s.vms && s.vms[order[k]].id == order[k]
      ensures var s := ScanRows(w, order[..k], cfg, now, replies);
              var row := s.vms[order[k]];
              ScanRows(w, order[..k + 1], cfg, now, replies)
              == Put(s, row,
                     Visit(SlotOf(s, row), now, CallsSince(s.callLog, row.projectId, now - cfg.activityWindow), cfg,
                           replies(row.libvirtName)))
    {
      assert order[..k + 1][..k] == order[..k];
    }

    /** A listed row is still what the listing said when its turn comes. */
    lemma RowsAheadAreFresh(w: World, order: seq<VmId>, k: nat, now: Time, replies: Replies)
      requires WellFormed(w) && IsListing(w, order) && k < |order|
      ensures var s := ScanRows(w, order[..k], cfg, now, replies);
              order[k] in w.vms && order[k] in s.vms && s.vms[order[k]] == w.vms[order[k]]
    {
      var id := order[k];
      assert id !in order[..k];
      LeaseOrder.ScanVisitsEach(w, order[..k], cfg, now, replies);
      var s := ScanRows(w, order[..k], cfg, now, replies);
      assert SlotOf(s, w.vms[id]) == SlotOf(w, w.vms[id]);
    }

    // ---------------------------------------------------------------- handlers

    method ExtendLease(id: VmId, now: Time, ttl: Time)
      modifies this`vms
      ensures State() == Extend(old(State()), id, now, ttl)
    {
      if id in vms {
        var row := vms[id];
        var newLease := (if row.leaseUntil >= now then row.leaseUntil else now) + ttl;
        vms := vms[id := row.(leaseUntil := newLease)];
      }
    }

    method DeleteVm(id: VmId, now: Time, reply: HostReply)
      requires WellFormed(State())
      modifies this
      ensures State() == Delete(old(State()), id, now, reply)
    {
      if id !in vms {
        return;
      }
      var row := vms[id];
      vms := vms[id := row.(state := Deleting)];
      UndefineDomain(row.libvirtName, reply.undefined);
      if row.origin.Boxer? {
        var failed := DeleteVmStorage(row.projectId, id, reply.storageFails);
        if failed {
          return;
        }
      }
      vms := vms - {id};
      actions := actions - {id};
      events := events + [EventFor(Info, row, DeletedByUser)];
      history := history + [Erased(id, now, false)];
      assert vms == old(vms) - {id};
    }

    method RecordProjectCall(projectId: ProjectId, now: Time)
      modifies this`callLog
      ensures State() == RecordCall(old(State()), projectId, now)
    {
      callLog := callLog + [Call(projectId, now)];
    }

    method StartVm(id: VmId, reply: CallReply) returns (raised: bool)
      modifies this`vms, this`domains
      ensures State() == Start(old(State()), id, reply)
      ensures raised <==> old(id !in vms || vms[id].libvirtName !in domains) || reply.raises
    {
      if id !in vms || vms[id].libvirtName !in domains {
        return true;
      }
      var row := vms[id];
      SetDomain(row.libvirtName, reply.after);
      if !reply.raises {
        vms := vms[id := row.(state := Running)];
      }
      raised := reply.raises;
    }

    method StopVm(id: VmId, reply: CallReply)
      modifies this`vms, this`domains
      ensures State() == Stop(old(State()), id, reply)
    {
      if id !in vms {
        return;
      }
      var row := vms[id];
      var raised := StopDomain(row.libvirtName, reply);
      if !raised {
        vms := vms[id := row.(state := Stopped)];
      }
    }
  }
}
