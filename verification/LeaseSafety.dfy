/**
 Safety of the cleanup over whole runs: a VM is forced off only after its own graceful
 request, a full force grace earlier, with nothing in between that would have called the
 shutdown off; and forced attempts are a force grace apart.
*/
module LeaseSafety {
  import opened Common
  import opened LeaseModel

  /** Entries after which an earlier graceful request for `v` no longer stands. */
  ghost predicate CallsOff(e: Entry, v: VmId) {
    && e.vmId == v
    && match e
       case Saw(_, _, leaseLive, state) => leaseLive || IsHalted(state)
       case AskedOff(_, _) => false
       case ForcedOff(_, _, succeeded) => succeeded
       case Erased(_, _, _) => true
  }

  ghost predicate IsForced(e: Entry, v: VmId) {
    e.ForcedOff? && e.vmId == v
  }

  /** A request for `v` at `j` that still stands at `k` and lets a forced stop happen from `due` on. */
  ghost predicate Stands(h: seq<Entry>, j: int, k: int, v: VmId, due: Time, grace: Time) {
    && 0 <= j < k <= |h|
    && h[j].AskedOff? && h[j].vmId == v && h[j].at + grace <= due
    && forall i :: j < i < k ==> !CallsOff(h[i], v) && (IsForced(h[i], v) ==> h[i].at + grace <= due)
  }

  ghost predicate Requested(h: seq<Entry>, v: VmId, due: Time, grace: Time) {
    exists j :: Stands(h, j, |h|, v, due, grace)
  }

  /** If entry `k` is a forced stop, a request stands for it that is at least `grace` old. */
  ghost predicate ForceJustified(h: seq<Entry>, k: int, grace: Time)
    requires 0 <= k < |h|
  {
    h[k].ForcedOff? ==> exists j :: Stands(h, j, k, h[k].vmId, h[k].at, grace)
  }

  ghost predicate InTimeOrder(h: seq<Entry>) {
    forall i, j :: 0 <= i <= j < |h| ==> h[i].at <= h[j].at
  }

  /** What every step keeps, at a clock no entry lies beyond. */
  ghost predicate Inv(w: World, cfg: Config, clock: Time) {
    && WellFormed(w)
    && InTimeOrder(w.history)
    && (forall i :: 0 <= i < |w.history| ==> w.history[i].at <= clock)
    && (forall k :: 0 <= k < |w.history| ==> ForceJustified(w.history, k, cfg.forceGrace))
    && (forall v :: v in w.actions ==> Requested(w.history, v, w.actions[v].forceAfter, cfg.forceGrace))
    && (forall v :: v in w.actions ==> w.actions[v].forceAfter <= clock + cfg.forceGrace)
  }

  // ------------------------------------------------------------------ appending one entry

  lemma RequestOutlives(h: seq<Entry>, e: Entry, v: VmId, due: Time, grace: Time)
    requires Requested(h, v, due, grace)
    requires !CallsOff(e, v) && (IsForced(e, v) ==> e.at + grace <= due)
    ensures Requested(h + [e], v, due, grace)
  {
    var j :| Stands(h, j, |h|, v, due, grace);
    assert Stands(h + [e], j, |h| + 1, v, due, grace);
  }

  lemma AskingRequests(h: seq<Entry>, v: VmId, now: Time, grace: Time)
    ensures Requested(h + [AskedOff(v, now)], v, now + grace, grace)
  {
    assert Stands(h + [AskedOff(v, now)], |h|, |h| + 1, v, now + grace, grace);
  }

  lemma RequestDelays(h: seq<Entry>, v: VmId, due: Time, later: Time, grace: Time)
    requires Requested(h, v, due, grace) && due <= later
    ensures Requested(h, v, later, grace)
  {
    var j :| Stands(h, j, |h|, v, due, grace);
    assert Stands(h, j, |h|, v, later, grace);
  }

  ghost predicate AllJustified(h: seq<Entry>, grace: Time) {
    forall k :: 0 <= k < |h| ==> ForceJustified(h, k, grace)
  }

  lemma AppendJustified(h: seq<Entry>, e: Entry, grace: Time)
    requires AllJustified(h, grace)
    requires e.ForcedOff? ==> Requested(h, e.vmId, e.at, grace)
    ensures AllJustified(h + [e], grace)
  {
    var h' := h + [e];
    forall k | 0 <= k < |h'| && h'[k].ForcedOff?
      ensures ForceJustified(h', k, grace)
    {
      if k < |h| {
        assert ForceJustified(h, k, grace);
        var j :| Stands(h, j, k, h[k].vmId, h[k].at, grace);
        assert Stands(h', j, k, h'[k].vmId, h'[k].at, grace);
      } else {
        var j :| Stands(h, j, |h|, e.vmId, e.at, grace);
        assert Stands(h', j, k, e.vmId, e.at, grace);
      }
    }
  }

  /** The part of the invariant that speaks of one VM. */
  ghost predicate ActionBacked(action: Option<CleanupAction>, h: seq<Entry>, v: VmId, cfg: Config, clock: Time) {
    action.Some? ==>
      && Requested(h, v, action.value.forceAfter, cfg.forceGrace)
      && action.value.forceAfter <= clock + cfg.forceGrace
  }

  lemma OthersStayBacked(action: Option<CleanupAction>, h: seq<Entry>, es: seq<Entry>, v: VmId, id: VmId,
                         cfg: Config, clock: Time)
    requires ActionBacked(action, h, v, cfg, clock)
    requires v != id && forall i :: 0 <= i < |es| ==> es[i].vmId == id
    ensures ActionBacked(action, h + es, v, cfg, clock)
  {
    if es == [] {
      assert h + es == h;
    } else if action.Some? {
      OthersStayBacked(action, h, es[..|es| - 1], v, id, cfg, clock);
      RequestOutlives(h + es[..|es| - 1], es[|es| - 1], v, action.value.forceAfter, cfg.forceGrace);
      assert h + es == (h + es[..|es| - 1]) + [es[|es| - 1]];
    }
  }

  /** A visit keeps its own row's action backed and issues only justified forced stops. */
  lemma VisitIsJustified(h: seq<Entry>, slot: Slot, now: Time, recent: nat, cfg: Config, reply: HostReply)
    requires slot.row.Some?
    requires AllJustified(h, cfg.forceGrace)
    requires ActionBacked(slot.action, h, slot.row.value.id, cfg, now)
    ensures
      var v := Visit(slot, now, recent, cfg, reply);
      && AllJustified(h + v.entries, cfg.forceGrace)
      && ActionBacked(v.slot.action, h + v.entries, slot.row.value.id, cfg, now)
      && (forall i :: 0 <= i < |v.entries| ==> v.entries[i].vmId == slot.row.value.id && v.entries[i].at == now)
  {
    var v := Visit(slot, now, recent, cfg, reply);
    var row := Refreshed(slot.row.value, slot.domain);
    var saw := Saw(row.id, now, now <= row.leaseUntil, row.state);
    var h1 := h + [saw];
    AppendJustified(h, saw, cfg.forceGrace);
    assert h + v.entries == if |v.entries| == 2 then h1 + [v.entries[1]] else h1;
    if row.leaseUntil < now && slot.action.Some? && !IsHalted(row.state) {
      var due := slot.action.value.forceAfter;
      RequestOutlives(h, saw, row.id, due, cfg.forceGrace);
      if |v.entries| == 2 {
        RequestDelays(h1, row.id, due, now, cfg.forceGrace);
        RequestDelays(h1, row.id, due, now + cfg.forceGrace, cfg.forceGrace);
        AppendJustified(h1, v.entries[1], cfg.forceGrace);
        if v.slot.action.Some? {
          RequestOutlives(h1, v.entries[1], row.id, now + cfg.forceGrace, cfg.forceGrace);
        }
      }
    } else if |v.entries| == 2 {
      AppendJustified(h1, v.entries[1], cfg.forceGrace);
      AskingRequests(h1, row.id, now, cfg.forceGrace);
    }
  }

  // ------------------------------------------------------------------ steps and runs

  lemma PutKeepsInv(w: World, id: VmId, v: Visited, cfg: Config, now: Time)
    requires Inv(w, cfg, now) && id in w.vms && StaysItself(w.vms[id], v.slot)
    requires forall i :: 0 <= i < |v.entries| ==> v.entries[i].vmId == id && v.entries[i].at == now
    requires AllJustified(w.history + v.entries, cfg.forceGrace)
    requires ActionBacked(v.slot.action, w.history + v.entries, id, cfg, now)
    ensures Inv(Put(w, w.vms[id], v), cfg, now)
  {
    var w' := Put(w, w.vms[id], v);
    PutKeepsWellFormed(w, id, v);
    forall a | a in w'.actions
      ensures ActionBacked(Some(w'.actions[a]), w'.history, a, cfg, now)
    {
      if a != id {
        assert ActionBacked(Some(w.actions[a]), w.history, a, cfg, now);
        OthersStayBacked(Some(w.actions[a]), w.history, v.entries, a, id, cfg, now);
      }
    }
  }

  lemma VisitRowKeepsInv(w: World, id: VmId, cfg: Config, now: Time, reply: Replies)
    requires Inv(w, cfg, now)
    ensures Inv(VisitRow(w, id, cfg, now, reply), cfg, now)
  {
    if id in w.vms {
      var row := w.vms[id];
      var slot := SlotOf(w, row);
      var recent := CallsSince(w.callLog, row.projectId, now - cfg.activityWindow);
      VisitStaysItself(slot, now, recent, cfg, reply(row.libvirtName));
      VisitIsJustified(w.history, slot, now, recent, cfg, reply(row.libvirtName));
      PutKeepsInv(w, id, VisitOf(w, row, cfg, now, reply), cfg, now);
    }
  }

  lemma {:induction false} ScanRowsKeepsInv(w: World, order: seq<VmId>, cfg: Config, now: Time, reply: Replies)
    requires Inv(w, cfg, now)
    ensures Inv(ScanRows(w, order, cfg, now, reply), cfg, now)
  {
    if order == [] {
    } else {
      ScanRowsKeepsInv(w, order[..|order| - 1], cfg, now, reply);
      VisitRowKeepsInv(ScanRows(w, order[..|order| - 1], cfg, now, reply), order[|order| - 1], cfg, now, reply);
    }
  }

  lemma DeleteKeepsInv(w: World, id: VmId, cfg: Config, now: Time, reply: HostReply)
    requires Inv(w, cfg, now)
    ensures Inv(Delete(w, id, now, reply), cfg, now)
  {
    var w' := Delete(w, id, now, reply);
    if id in w.vms && id !in w'.vms {
      var row := w.vms[id];
      var domain := if row.libvirtName in w.domains then reply.undefined else None;
      var stored := (row.projectId, row.id) in w.storage && !row.origin.Boxer?;
      var v := Visited(Slot(None, None, domain, stored),
                       [EventFor(Info, row, DeletedByUser)], [], [Erased(id, now, false)]);
      AppendJustified(w.history, Erased(id, now, false), cfg.forceGrace);
      PutKeepsInv(w, id, v, cfg, now);
    }
  }

  /** Steps that touch neither the actions nor the history only have to keep the table in order. */
  lemma QuietStepKeepsInv(w: World, w': World, cfg: Config, clock: Time)
    requires Inv(w, cfg, clock) && WellFormed(w')
    requires w'.actions == w.actions && w'.history == w.history
    ensures Inv(w', cfg, clock)
  {
  }

  lemma ClockMovesOn(w: World, cfg: Config, clock: Time, now: Time)
    requires Inv(w, cfg, clock) && clock <= now
    ensures Inv(w, cfg, now)
  {
  }

  lemma QuietSteps(w: World, cfg: Config, step: Step)
    requires WellFormed(w) && !step.ScanStep? && !step.DeleteStep?
    ensures WellFormed(Apply(w, cfg, step))
    ensures Apply(w, cfg, step).actions == w.actions && Apply(w, cfg, step).history == w.history
  {
  }

  lemma StepKeepsInv(w: World, cfg: Config, clock: Time, step: Step)
    requires Inv(w, cfg, clock) && clock <= step.now
    ensures Inv(Apply(w, cfg, step), cfg, step.now)
  {
    ClockMovesOn(w, cfg, clock, step.now);
    if step.ScanStep? {
      ScanRowsKeepsInv(w, step.order, cfg, step.now, step.replies);
      QuietStepKeepsInv(ScanRows(w, step.order, cfg, step.now, step.replies), Apply(w, cfg, step), cfg, step.now);
    } else if step.DeleteStep? {
      DeleteKeepsInv(w, step.vmId, cfg, step.now, step.reply);
    } else {
      QuietSteps(w, cfg, step);
      QuietStepKeepsInv(w, Apply(w, cfg, step), cfg, step.now);
    }
  }

  lemma {:induction false} RunKeepsInv(w: World, cfg: Config, start: Time, steps: seq<Step>)
    requires Inv(w, cfg, start) && IsRun(w, cfg, start, steps)
    ensures Inv(Run(w, cfg, steps), cfg, Clock(start, steps))
  {
    if steps == [] {
    } else {
      var before := steps[..|steps| - 1];
      RunKeepsInv(w, cfg, start, before);
      StepKeepsInv(Run(w, cfg, before), cfg, Clock(start, before), steps[|steps| - 1]);
    }
  }

  /** A table nobody has scanned yet. */
  ghost predicate Initial(w: World) {
    WellFormed(w) && w.actions == map[] && w.history == []
  }

  /**
   Over every run, each forced stop of a VM at time n has its own graceful request of that VM
   at some t with t + grace <= n; between the two no scan saw the lease live or the VM halted,
   the row was not deleted and no other force succeeded, and every failed force in between
   is itself at least a grace older than n.
  */
  lemma {:induction false} EveryForcedStopWasRequested(w: World, cfg: Config, start: Time, steps: seq<Step>, k: nat)
    requires Initial(w) && IsRun(w, cfg, start, steps)
    requires k < |Run(w, cfg, steps).history|
    ensures var h := Run(w, cfg, steps).history;
            h[k].ForcedOff? ==>
              exists j :: Stands(h, j, k, h[k].vmId, h[k].at, cfg.forceGrace)
  {
    RunKeepsInv(w, cfg, start, steps);
    assert ForceJustified(Run(w, cfg, steps).history, k, cfg.forceGrace);
  }

  /** Any two forced attempts on one VM, however many requests lie between, are a grace apart. */
  lemma {:induction false} ForcedStopsAreSpaced(w: World, cfg: Config, start: Time, steps: seq<Step>, i: nat, k: nat)
    requires Initial(w) && IsRun(w, cfg, start, steps)
    requires i < k < |Run(w, cfg, steps).history|
    requires var h := Run(w, cfg, steps).history; h[k].ForcedOff? && IsForced(h[i], h[k].vmId)
    ensures var h := Run(w, cfg, steps).history; h[i].at + cfg.forceGrace <= h[k].at
  {
    var h := Run(w, cfg, steps).history;
    RunKeepsInv(w, cfg, start, steps);
    assert ForceJustified(h, k, cfg.forceGrace);
    var j :| Stands(h, j, k, h[k].vmId, h[k].at, cfg.forceGrace);
    assert h[i].at <= h[j].at || j < i;
  }

  /**
   Once a scan has seen the lease live or the VM halted, a later forced stop is preceded by
   a graceful request made after that scan.
  */
  lemma {:induction false} ReprieveNeedsNewRequest(w: World, cfg: Config, start: Time, steps: seq<Step>, i: nat, k: nat)
    requires Initial(w) && IsRun(w, cfg, start, steps)
    requires i < k < |Run(w, cfg, steps).history|
    requires var h := Run(w, cfg, steps).history; h[k].ForcedOff? && CallsOff(h[i], h[k].vmId)
    ensures var h := Run(w, cfg, steps).history;
            exists j :: i < j < k && h[j].AskedOff? && h[j].vmId == h[k].vmId && h[j].at + cfg.forceGrace <= h[k].at
  {
    var h := Run(w, cfg, steps).history;
    EveryForcedStopWasRequested(w, cfg, start, steps, k);
    var j :| Stands(h, j, k, h[k].vmId, h[k].at, cfg.forceGrace);
    assert i < j;
  }
}
