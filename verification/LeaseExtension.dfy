/**
 A lease extension wins over the cleanup: until the extended lease has passed, no scan stops
 or deletes the VM, and the first scan forgets any shutdown already under way.
*/
module LeaseExtension {
  import opened Common
  import opened LeaseModel
  import opened LeaseSafety

  /** From entry `n` on, the scanner did nothing to `id` but see its lease live. */
  ghost predicate LeftAlone(h: seq<Entry>, n: nat, id: VmId) {
    forall i :: n <= i < |h| && h[i].vmId == id ==> (h[i].Saw? && h[i].leaseLive) || (h[i].Erased? && !h[i].byScan)
  }

  /** The row keeps its lease through a step, and the history only grows, leaving `id` alone. */
  ghost predicate Spared(w: World, w': World, n: nat, id: VmId, until: Time) {
    && WellFormed(w')
    && n <= |w'.history|
    && LeftAlone(w'.history, n, id)
    && (id in w'.vms ==> id in w.vms && w'.vms[id].leaseUntil >= until)
    && (id in w'.actions ==> id in w.actions)
  }

  lemma PutSpares(w: World, visited: VmId, v: Visited, n: nat, id: VmId, until: Time)
    requires Spared(w, w, n, id, until)
    requires visited in w.vms && StaysItself(w.vms[visited], v.slot)
    requires forall i :: 0 <= i < |v.entries| ==> v.entries[i].vmId == visited
    requires visited == id ==> LeftAlone(v.entries, 0, id) && v.slot.action.None?
    ensures Spared(w, Put(w, w.vms[visited], v), n, id, until)
    ensures visited == id ==> id !in Put(w, w.vms[visited], v).actions
  {
    PutKeepsWellFormed(w, visited, v);
    var h := w.history + v.entries;
    forall i | n <= i < |h| && h[i].vmId == id
      ensures (h[i].Saw? && h[i].leaseLive) || (h[i].Erased? && !h[i].byScan)
    {
      if i >= |w.history| {
        assert h[i] == v.entries[i - |w.history|];
      }
    }
  }

  lemma VisitOnLiveLease(slot: Slot, now: Time, recent: nat, cfg: Config, reply: HostReply)
    requires slot.row.Some?
    ensures var v := Visit(slot, now, recent, cfg, reply);
            && (forall i :: 0 <= i < |v.entries| ==> v.entries[i].vmId == slot.row.value.id)
            && (now <= slot.row.value.leaseUntil ==> LeftAlone(v.entries, 0, slot.row.value.id) && v.slot.action.None?)
  {
  }

  lemma VisitSpares(w: World, visited: VmId, cfg: Config, now: Time, reply: Replies, n: nat, id: VmId, until: Time)
    requires Spared(w, w, n, id, until) && now <= until
    ensures Spared(w, VisitRow(w, visited, cfg, now, reply), n, id, until)
    ensures visited == id ==> id !in VisitRow(w, visited, cfg, now, reply).actions
  {
    hide Visit, CallsSince, Put;
    if visited in w.vms {
      var row := w.vms[visited];
      var slot := SlotOf(w, row);
      var recent := CallsSince(w.callLog, row.projectId, now - cfg.activityWindow);
      VisitStaysItself(slot, now, recent, cfg, reply(row.libvirtName));
      VisitOnLiveLease(slot, now, recent, cfg, reply(row.libvirtName));
      PutSpares(w, visited, VisitOf(w, row, cfg, now, reply), n, id, until);
    }
  }

  lemma {:induction false} ScanRowsSpare(w: World, order: seq<VmId>, cfg: Config, now: Time, reply: Replies, n: nat,
                                         id: VmId, until: Time)
    requires Spared(w, w, n, id, until) && now <= until
    ensures Spared(w, ScanRows(w, order, cfg, now, reply), n, id, until)
    ensures id in order ==> id !in ScanRows(w, order, cfg, now, reply).actions
  {
    if order == [] {
    } else {
      var before, last := order[..|order| - 1], order[|order| - 1];
      ScanRowsSpare(w, before, cfg, now, reply, n, id, until);
      VisitSpares(ScanRows(w, before, cfg, now, reply), last, cfg, now, reply, n, id, until);
      assert order == before + [last];
    }
  }

  /** Nobody shortens the lease of `id` or makes a new VM of that name. */
  ghost predicate RespectsLease(step: Step, id: VmId) {
    && (step.ExtendStep? && step.vmId == id ==> step.ttl >= 0)
    && (step.CreateStep? ==> step.row.id != id)
  }

  lemma DeleteSpares(w: World, visited: VmId, now: Time, reply: HostReply, n: nat, id: VmId, until: Time)
    requires Spared(w, w, n, id, until)
    ensures Spared(w, Delete(w, visited, now, reply), n, id, until)
  {
    if visited in w.vms && visited !in Delete(w, visited, now, reply).vms {
      var row := w.vms[visited];
      var domain := if row.libvirtName in w.domains then reply.undefined else None;
      var stored := (row.projectId, row.id) in w.storage && !row.origin.Boxer?;
      PutSpares(w, visited, Visited(Slot(None, None, domain, stored), [EventFor(Info, row, DeletedByUser)], [],
                                    [Erased(visited, now, false)]), n, id, until);
    }
  }

  lemma QuietStepSpares(w: World, cfg: Config, step: Step, n: nat, id: VmId, until: Time)
    requires Spared(w, w, n, id, until) && RespectsLease(step, id)
    requires !step.ScanStep? && !step.DeleteStep?
    ensures Spared(w, Apply(w, cfg, step), n, id, until)
  {
    QuietSteps(w, cfg, step);
  }

  lemma StepSpares(w: World, cfg: Config, step: Step, n: nat, id: VmId, until: Time)
    requires Spared(w, w, n, id, until) && step.now <= until && RespectsLease(step, id)
    ensures Spared(w, Apply(w, cfg, step), n, id, until)
    ensures step.ScanStep? && Enabled(w, step) ==> id !in Apply(w, cfg, step).actions
  {
    if step.ScanStep? {
      ScanRowsSpare(w, step.order, cfg, step.now, step.replies, n, id, until);
    } else if step.DeleteStep? {
      DeleteSpares(w, step.vmId, step.now, step.reply, n, id, until);
    } else {
      QuietStepSpares(w, cfg, step, n, id, until);
    }
  }

  lemma {:induction false} RunSpares(w: World, cfg: Config, start: Time, steps: seq<Step>, n: nat, id: VmId,
                                     until: Time)
    requires Spared(w, w, n, id, until) && IsRun(w, cfg, start, steps)
    requires Clock(start, steps) <= until
    requires forall i :: 0 <= i < |steps| ==> RespectsLease(steps[i], id)
    ensures Spared(w, Run(w, cfg, steps), n, id, until)
    ensures (exists i :: 0 <= i < |steps| && steps[i].ScanStep?) ==> id !in Run(w, cfg, steps).actions
  {
    if steps == [] {
    } else {
      var before, last := steps[..|steps| - 1], steps[|steps| - 1];
      RunSpares(w, cfg, start, before, n, id, until);
      StepSpares(Run(w, cfg, before), cfg, last, n, id, until);
      assert forall i :: 0 <= i < |steps| && steps[i].ScanStep? ==> last.ScanStep? || before[i].ScanStep?;
    }
  }

  /**
   After an extension at time t with ttl >= 0 the lease reaches at least t + ttl, and over any
   run that does not pass the new lease, whatever the host and other callers do, the scanner
   neither stops nor deletes the VM, its lease stays at least as long, and from the first scan
   on no shutdown is pending for it.
  */
  lemma {:induction false} ExtensionWins(w: World, cfg: Config, id: VmId, t: Time, ttl: Time, steps: seq<Step>)
    requires WellFormed(w) && id in w.vms && ttl >= 0
    requires var w1 := Extend(w, id, t, ttl);
             && IsRun(w1, cfg, t, steps)
             && Clock(t, steps) <= w1.vms[id].leaseUntil
    requires forall i :: 0 <= i < |steps| ==> RespectsLease(steps[i], id)
    ensures var w1 := Extend(w, id, t, ttl);
            var w2 := Run(w1, cfg, steps);
            && w1.vms[id].leaseUntil >= w.vms[id].leaseUntil
            && w1.vms[id].leaseUntil >= t + ttl
            && |w.history| <= |w2.history|
            && LeftAlone(w2.history, |w.history|, id)
            && (id in w2.vms ==> w2.vms[id].leaseUntil >= w1.vms[id].leaseUntil)
            && ((exists i :: 0 <= i < |steps| && steps[i].ScanStep?) ==> id !in w2.actions)
  {
    var w1 := Extend(w, id, t, ttl);
    QuietSteps(w, cfg, ExtendStep(t, id, ttl));
    RunSpares(w1, cfg, t, steps, |w.history|, id, w1.vms[id].leaseUntil);
  }
}
