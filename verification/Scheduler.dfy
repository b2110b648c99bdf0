/**
 The request handler, the capacity counters and the queue runner as they work on the tables,
 each proved to compute its step of `AdmissionModel`.
*/
module Scheduler {
  import opened Common
  import opened AdmissionModel

  class Daemon {
    const cfg: Config
    var rows: seq<Row>
    var domains: seq<Domain>
    var queue: seq<Entry>
    var watched: set<VmId>
    var nextVm: VmId
    var nextEntry: EntryId
    ghost var accepted: nat
    ghost var created: nat
    ghost var promoted: seq<EntryId>

    ghost function State(): World
      reads this
    {
      World(rows, domains, queue, watched, nextVm, nextEntry, accepted, created, promoted)
    }

    constructor (cfg: Config)
      ensures this.cfg == cfg && State() == EMPTY
    {
      this.cfg := cfg;
      rows, domains, queue, watched, nextVm, nextEntry := [], [], [], {}, 0, 0;
      accepted, created, promoted := 0, 0, [];
    }

    // ---------------------------------------------------------------- capacity

    /** A listing that fails leaves the sum as far as it got. */
    method UsedRamGib(listing: Listing) returns (gib: real)
      ensures gib == UsedGib(State(), listing)
    {
      var total := 0;
      for i := 0 to |domains|
        invariant total == Weigh(domains[..i], ActiveKib())
        invariant listing.CutAfter? ==> i <= listing.k
      {
        if listing.CutAfter? && i == listing.k {
          return KibToGib(total);
        }
        assert domains[..i + 1][..i] == domains[..i];
        if domains[i].active {
          total := total + domains[i].memKib;
        }
      }
      assert domains[..|domains|] == domains;
      gib := KibToGib(total);
    }

    method UsedVcpuCount(listing: Listing) returns (total: int)
      ensures total == UsedVcpus(State(), listing)
    {
      total := 0;
      for i := 0 to |domains|
        invariant total == Weigh(domains[..i], ActiveVcpus())
        invariant listing.CutAfter? ==> i <= listing.k
      {
        if listing.CutAfter? && i == listing.k {
          return;
        }
        assert domains[..i + 1][..i] == domains[..i];
        if domains[i].active {
          total := total + domains[i].vcpus;
        }
      }
      assert domains[..|domains|] == domains;
    }

    method ProjectUsage(project: ProjectId) returns (running: int, disk: int)
      ensures running == Weigh(rows, RunningOf(project)) && disk == Weigh(rows, DiskOf(project))
    {
      running, disk := 0, 0;
      for i := 0 to |rows|
        invariant running == Weigh(rows[..i], RunningOf(project)) && disk == Weigh(rows[..i], DiskOf(project))
      {
        assert rows[..i + 1][..i] == rows[..i];
        if rows[i].project == project {
          disk := disk + rows[i].diskGb;
          if rows[i].running {
            running := running + 1;
          }
        }
      }
      assert rows[..|rows|] == rows;
    }

    method CountInstalling() returns (n: int)
      ensures n == Weigh(rows, InstallingOf())
    {
      n := 0;
      for i := 0 to |rows|
        invariant n == Weigh(rows[..i], InstallingOf())
      {
        assert rows[..i + 1][..i] == rows[..i];
        if rows[i].installing {
          n := n + 1;
        }
      }
      assert rows[..|rows|] == rows;
    }

    method Check(answers: Answers, project: ProjectId, cpu: Size, ramMb: Size, diskGb: Size)
      returns (v: Verdict)
      ensures v == CheckAdmission(State(), cfg, answers, project, cpu, ramMb, diskGb)
    {
      var usedGib := UsedRamGib(answers.ram);
      var usedVcpus := UsedVcpuCount(answers.vcpus);
      var freeGib := Round2(MaxReal(0.0, cfg.usableRam - usedGib));
      var freeVcpus := if cfg.maxVcpus - usedVcpus >= 0 then cfg.maxVcpus - usedVcpus else 0;
      if ramMb.NoNumber? || Overflows(ramMb) {
        return Raises;
      }
      if Amount(ramMb) / 1024.0 > freeGib {
        return Denied(NoRam);
      }
      if cpu.NoNumber? {
        return Raises;
      }
      if Amount(cpu) > freeVcpus as real {
        return Denied(NoVcpus);
      }
      var running, disk := ProjectUsage(project);
      if running >= cfg.maxRunning {
        return Denied(TooManyRunning);
      }
      if diskGb.NoNumber? {
        return Raises;
      }
      v := if disk as real + Amount(diskGb) > cfg.maxDisk as real then Denied(NoDisk) else Admitted;
    }

    // ---------------------------------------------------------------- requests

    method HandleRequest(r: Request, luck: Luck, now: Time) returns (outcome: Outcome)
      modifies this`rows, this`domains, this`queue, this`watched, this`nextVm, this`nextEntry, this`created
      ensures (State(), outcome) == Handle(old(State()), cfg, r, luck, now)
    {
      hide CheckAdmission, OrDefault, Weigh, Installs;
      if luck.provisioning.Invalid? {
        return Failed;
      }
      var cpu, ramMb, diskGb :=
        OrDefault(r.cpu, r.defaults.cpu), OrDefault(r.ramMb, r.defaults.ramMb), OrDefault(r.diskGb, r.defaults.diskGb);
      if cpu.None? || ramMb.None? || diskGb.None? {
        return Failed;
      }
      var verdict := Admitted;
      var tooMany := false;
      if r.job.Installer? {
        var installing := CountInstalling();
        tooMany := installing >= cfg.maxInstalls;
      }
      if tooMany {
        verdict := Denied(TooManyInstalls);
      } else {
        verdict := Check(luck.handlerAnswers, r.project, Whole(cpu.value), Whole(ramMb.value), Whole(diskGb.value));
      }
      if verdict.Denied? {
        outcome := Queued(nextEntry);
        queue := queue + [Entry(nextEntry, r, Waiting, now)];
        nextEntry := nextEntry + 1;
        return;
      }
      if verdict.Raises? || luck.provisioning.Breaks? {
        return Failed;
      }
      outcome := CreatedVm(nextVm);
      domains := domains + [Domain(nextVm, ramMb.value * 1024, cpu.value, true)];
      rows := rows + [Row(nextVm, r.project, true, diskGb.value, Installs(r))];
      if Installs(r) {
        watched := watched + {nextVm};
      }
      nextVm := nextVm + 1;
      created := created + 1;
    }

    method Submit(r: Request, luck: Luck, now: Time) returns (outcome: Outcome)
      modifies this
      ensures State() == SubmitRequest(old(State()), cfg, r, luck, now)
    {
      outcome := HandleRequest(r, luck, now);
      if !outcome.Failed? {
        accepted := accepted + 1;
      }
    }

    // ---------------------------------------------------------------- the queue runner

    method ListPending() returns (entries: seq<Entry>)
      ensures entries == Pending(queue)
    {
      entries := [];
      for i := 0 to |queue|
        invariant entries == Pending(queue[..i])
      {
        assert queue[..i + 1][..i] == queue[..i];
        if queue[i].status.Waiting? {
          entries := entries + [queue[i]];
        }
      }
      assert queue[..|queue|] == queue;
    }

    method UpdateStatus(id: EntryId, status: Status)
      modifies this`queue
      ensures queue == SetStatus(old(queue), id, status)
    {
      var updated: seq<Entry> := [];
      for i := 0 to |queue|
        invariant updated == SetStatus(queue[..i], id, status)
      {
        assert queue[..i + 1][..i] == queue[..i];
        updated := updated + [if queue[i].id == id then queue[i].(status := status) else queue[i]];
      }
      assert queue[..|queue|] == queue;
      queue := updated;
    }

    method PromoteEntry(e: Entry, luck: Luck, now: Time)
      modifies this
      ensures State() == Promote(old(State()), cfg, e, luck, now)
    {
      UpdateStatus(e.id, Processing);
      promoted := promoted + [e.id];
      var outcome := HandleRequest(e.request, luck, now);
      if outcome.Failed? {
        UpdateStatus(e.id, Expired);
      } else {
        UpdateStatus(e.id, Done);
      }
    }

    /** A comparison with a size that is no number raises out of the loop and ends the pass. */
    method ProcessQueue(lucks: Lucks, now: Time)
      modifies this
      ensures State() == QueuePass(old(State()), cfg, lucks, now)
    {
      ghost var w := State();
      var entries := ListPending();
      var aborted := false;
      for i := 0 to |entries|
        invariant PassOver(w, cfg, entries[..i], lucks, now) == PassState(State(), aborted)
      {
        assert entries[..i + 1][..i] == entries[..i];
        if !aborted {
          var e := entries[i];
          var luck := lucks(e.id);
          var verdict := Check(luck.runnerAnswers, e.request.project, RunnerSize(e.request.cpu, 2),
                               RunnerSize(e.request.ramMb, 2048), RunnerSize(e.request.diskGb, 20));
          if verdict.Raises? {
            aborted := true;
          } else if verdict.Admitted? {
            PromoteEntry(e, luck, now);
          }
        }
      }
      assert entries[..|entries|] == entries;
    }

    method ExpireOldEntries(cutoff: Time)
      modifies this`queue
      ensures State() == Apply(old(State()), cfg, ExpireStep(cutoff))
    {
      var updated: seq<Entry> := [];
      for i := 0 to |queue|
        invariant updated == ExpireOlder(queue[..i], cutoff)
      {
        assert queue[..i + 1][..i] == queue[..i];
        var e := queue[i];
        updated := updated + [if e.status.Waiting? && e.createdAt < cutoff then e.(status := Expired) else e];
      }
      assert queue[..|queue|] == queue;
      queue := updated;
    }

    // ---------------------------------------------------------------- what turns VMs on besides

    /** Rewrite the rows of one VM. */
    method UpdateRows(vm: VmId, change: Change)
      modifies this`rows
      ensures rows == MapRows(old(rows), vm, change)
    {
      var updated: seq<Row> := [];
      for i := 0 to |rows|
        invariant updated == MapRows(rows[..i], vm, change)
      {
        assert rows[..i + 1][..i] == rows[..i];
        updated := updated + [if rows[i].vm == vm then Changed(rows[i], change) else rows[i]];
      }
      assert rows[..|rows|] == rows;
      rows := updated;
    }

    method StartDomain(vm: VmId)
      modifies this`domains
      ensures domains == MapDomains(old(domains), vm, true)
    {
      var updated: seq<Domain> := [];
      for i := 0 to |domains|
        invariant updated == MapDomains(domains[..i], vm, true)
      {
        assert domains[..i + 1][..i] == domains[..i];
        updated := updated + [if domains[i].vm == vm then domains[i].(active := true) else domains[i]];
      }
      assert domains[..|domains|] == domains;
      domains := updated;
    }

    /** The end of the install watcher: it gives up, or boots the disk of the domain it saw off. */
    method FinishInstall(vm: VmId, end: InstallEnd)
      modifies this`rows, this`domains, this`watched
      ensures State() == InstallEnded(old(State()), vm, end)
    {
      hide MapRows, MapDomains;
      if vm !in watched || (end.BootedFromDisk? && !CanBootNow(vm)) {
        return;
      }
      if end.BootedFromDisk? {
        StartDomain(vm);
        UpdateRows(vm, BootInstalled);
      } else {
        UpdateRows(vm, EndInstall);
      }
      watched := watched - {vm};
    }

    predicate CanBootNow(vm: VmId)
      reads this
    {
      vm in watched && IsDefined(domains, vm) && !IsOn(domains, vm)
    }

    /** A scan writes the live state of every domain libvirt knows back to its row. */
    method RefreshStates(otherwise: set<VmId>)
      modifies this`rows
      ensures State() == Apply(old(State()), cfg, RefreshStep(otherwise))
    {
      var updated: seq<Row> := [];
      for i := 0 to |rows|
        invariant updated == Refreshed(rows[..i], domains, otherwise)
      {
        assert rows[..i + 1][..i] == rows[..i];
        var row := rows[i];
        if IsDefined(domains, row.vm) {
          row := row.(running := IsOn(domains, row.vm) && row.vm !in otherwise);
        }
        updated := updated + [row];
      }
      assert rows[..|rows|] == rows;
      rows := updated;
    }
  }
}
