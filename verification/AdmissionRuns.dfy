/**
 The resource caps over whole runs.  What starts a VM without admission, or finds one running
 that was recorded as stopped, keeps the caps exactly when there is room.
*/
module AdmissionRuns {
  import opened AdmissionModel
  import opened AdmissionCaps

  // ------------------------------------------------------------------ starting without admission

  /** What the domain of `vm` would add to the vCPUs and memory in use. */
  function IdleVcpus(vm: VmId): Domain -> int { (d: Domain) => if d.vm == vm && !d.active then d.vcpus else 0 }

  function IdleKib(vm: VmId): Domain -> int { (d: Domain) => if d.vm == vm && !d.active then d.memKib else 0 }

  /** What it would add to the running VMs of `p`. */
  function IdleOf(p: ProjectId, vm: VmId): Row -> int {
    (r: Row) => if r.project == p && r.vm == vm && !r.running then 1 else 0
  }

  lemma {:induction false} StartingAdds(domains: seq<Domain>, vm: VmId)
    ensures Weigh(MapDomains(domains, vm, true), ActiveVcpus())
            == Weigh(domains, ActiveVcpus()) + Weigh(domains, IdleVcpus(vm))
    ensures Weigh(MapDomains(domains, vm, true), ActiveKib())
            == Weigh(domains, ActiveKib()) + Weigh(domains, IdleKib(vm))
  {
    if domains == [] {
    } else {
      var before, last := domains[..|domains| - 1], domains[|domains| - 1];
      StartingAdds(before, vm);
      var last' := if last.vm == vm then last.(active := true) else last;
      WeighAppend(MapDomains(before, vm, true), last', ActiveVcpus());
      WeighAppend(MapDomains(before, vm, true), last', ActiveKib());
    }
  }

  lemma {:induction false} ResumingAdds(rows: seq<Row>, vm: VmId, change: Change, p: ProjectId)
    requires change.Resume? || change.BootInstalled?
    ensures Weigh(MapRows(rows, vm, change), RunningOf(p)) == Weigh(rows, RunningOf(p)) + Weigh(rows, IdleOf(p, vm))
  {
    if rows == [] {
    } else {
      var before, last := rows[..|rows| - 1], rows[|rows| - 1];
      ResumingAdds(before, vm, change, p);
      WeighAppend(MapRows(before, vm, change), if last.vm == vm then Changed(last, change) else last, RunningOf(p));
    }
  }

  /** There is room for `vm`: free vCPUs, free memory, and a place among its project's running VMs. */
  ghost predicate RoomFor(w: World, cfg: Config, vm: VmId) {
    && Weigh(w.domains, IdleVcpus(vm)) <= FreeVcpus(w, cfg, Listed)
    && KibToGib(Weigh(w.domains, IdleKib(vm))) <= MaxReal(0.0, cfg.usableRam) + 0.005 - UsedGib(w, Listed)
    && (forall p :: Weigh(w.rows, IdleOf(p, vm)) <= cfg.maxRunning - Weigh(w.rows, RunningOf(p)))
  }

  lemma TurningOnKeepsCapsIff(w: World, cfg: Config, vm: VmId, change: Change)
    requires Inv(w, cfg) && (change.Resume? || change.BootInstalled?)
    ensures var w' := w.(rows := MapRows(w.rows, vm, change), domains := MapDomains(w.domains, vm, true));
            NonNegative(w') && (WithinCaps(w', cfg) <==> RoomFor(w, cfg, vm))
  {
    hide Weigh, MapRows, DropRows, MapDomains;
    var w' := w.(rows := MapRows(w.rows, vm, change), domains := MapDomains(w.domains, vm, true));
    StartingAdds(w.domains, vm);
    DomainsStayNonNegative(w.domains, vm, true);
    RowsStayNonNegative(w.rows, vm, change);
    RowChangeSheds(w.rows, vm, change, InstallingOf());
    forall p
      ensures Weigh(w'.rows, DiskOf(p)) <= Weigh(w.rows, DiskOf(p))
      ensures Weigh(w'.rows, RunningOf(p)) == Weigh(w.rows, RunningOf(p)) + Weigh(w.rows, IdleOf(p, vm))
    {
      RowsShed(w, vm, change, p);
      ResumingAdds(w.rows, vm, change, p);
    }
    TurningOnArithmetic(w, w', cfg, vm);
  }

  lemma TurningOnArithmetic(w: World, w': World, cfg: Config, vm: VmId)
    requires Inv(w, cfg)
    requires Weigh(w'.domains, ActiveVcpus()) == Weigh(w.domains, ActiveVcpus()) + Weigh(w.domains, IdleVcpus(vm))
    requires Weigh(w'.domains, ActiveKib()) == Weigh(w.domains, ActiveKib()) + Weigh(w.domains, IdleKib(vm))
    requires forall p :: Weigh(w'.rows, DiskOf(p)) <= Weigh(w.rows, DiskOf(p))
    requires forall p :: Weigh(w'.rows, RunningOf(p)) == Weigh(w.rows, RunningOf(p)) + Weigh(w.rows, IdleOf(p, vm))
    requires Weigh(w'.rows, InstallingOf()) <= Weigh(w.rows, InstallingOf())
    ensures WithinCaps(w', cfg) <==> RoomFor(w, cfg, vm)
  {
    hide Weigh;
    assert KibToGib(Weigh(w'.domains, ActiveKib()))
        == KibToGib(Weigh(w.domains, ActiveKib())) + KibToGib(Weigh(w.domains, IdleKib(vm)));
  }

  // ------------------------------------------------------------------ finding VMs running

  function FoundOf(p: ProjectId, domains: seq<Domain>, otherwise: set<VmId>): Row -> int {
    (r: Row) => if r.project == p && FoundRunning(r, domains, otherwise) then 1 else 0
  }

  lemma {:induction false} RefreshShape(rows: seq<Row>, domains: seq<Domain>, otherwise: set<VmId>)
    ensures var after := Refreshed(rows, domains, otherwise);
            && |after| == |rows|
            && forall i :: 0 <= i < |rows| ==>
                 after[i] == rows[i].(running := FoundRunning(rows[i], domains, otherwise))
  {
    hide FoundRunning;
    if rows == [] {
    } else {
      RefreshShape(rows[..|rows| - 1], domains, otherwise);
    }
  }

  lemma {:induction false} RefreshCounts(rows: seq<Row>, domains: seq<Domain>, otherwise: set<VmId>, p: ProjectId)
    ensures var after := Refreshed(rows, domains, otherwise);
            && Weigh(after, RunningOf(p)) == Weigh(rows, FoundOf(p, domains, otherwise))
            && Weigh(after, DiskOf(p)) == Weigh(rows, DiskOf(p))
  {
    hide FoundRunning;
    if rows == [] {
    } else {
      var before, last := rows[..|rows| - 1], rows[|rows| - 1];
      RefreshCounts(before, domains, otherwise, p);
      var last' := last.(running := FoundRunning(last, domains, otherwise));
      WeighAppend(Refreshed(before, domains, otherwise), last', RunningOf(p));
      WeighAppend(Refreshed(before, domains, otherwise), last', DiskOf(p));
    }
  }

  lemma {:induction false} RefreshKeepsInstalls(rows: seq<Row>, domains: seq<Domain>, otherwise: set<VmId>)
    ensures Weigh(Refreshed(rows, domains, otherwise), InstallingOf()) == Weigh(rows, InstallingOf())
  {
    hide FoundRunning;
    if rows == [] {
    } else {
      var before, last := rows[..|rows| - 1], rows[|rows| - 1];
      RefreshKeepsInstalls(before, domains, otherwise);
      var last' := last.(running := FoundRunning(last, domains, otherwise));
      WeighAppend(Refreshed(before, domains, otherwise), last', InstallingOf());
    }
  }

  /** No project has more VMs on, whatever the rows say, than may run. */
  ghost predicate FewEnoughOn(w: World, cfg: Config, otherwise: set<VmId>) {
    forall p :: Weigh(w.rows, FoundOf(p, w.domains, otherwise)) <= cfg.maxRunning
  }

  lemma RefreshKeepsCapsIff(w: World, cfg: Config, otherwise: set<VmId>)
    requires Inv(w, cfg)
    ensures var w' := w.(rows := Refreshed(w.rows, w.domains, otherwise));
            NonNegative(w') && (WithinCaps(w', cfg) <==> FewEnoughOn(w, cfg, otherwise))
  {
    hide Weigh, FoundRunning, Refreshed;
    RefreshShape(w.rows, w.domains, otherwise);
    RefreshKeepsInstalls(w.rows, w.domains, otherwise);
    forall p
      ensures var after := Refreshed(w.rows, w.domains, otherwise);
              && Weigh(after, RunningOf(p)) == Weigh(w.rows, FoundOf(p, w.domains, otherwise))
              && Weigh(after, DiskOf(p)) == Weigh(w.rows, DiskOf(p))
    {
      RefreshCounts(w.rows, w.domains, otherwise, p);
    }
  }

  // ------------------------------------------------------------------ runs

  /** Requests have positive sizes, and libvirt lists its domains when a handler checks admission. */
  ghost predicate Orderly(step: Step) {
    match step
    case RequestStep(r, luck, _) => Positive(r) && luck.handlerAnswers == ALL_LISTED
    case PassStep(lucks, _) => forall id :: lucks(id).handlerAnswers == ALL_LISTED
    case _ => true
  }

  /** There is room for what the step turns on or finds on; the other steps ask for none. */
  ghost predicate HasRoom(w: World, cfg: Config, step: Step) {
    match step
    case StartStep(vm) => Started(w, vm) != w ==> RoomFor(w, cfg, vm)
    case InstallEndsStep(vm, end) => end.BootedFromDisk? && CanBoot(w, vm) ==> RoomFor(w, cfg, vm)
    case RefreshStep(otherwise) => FewEnoughOn(w, cfg, otherwise)
    case _ => true
  }

  lemma SwitchStaysWithinCaps(w: World, cfg: Config, step: Step)
    requires Inv(w, cfg) && (step.StartStep? || step.InstallEndsStep? || step.RefreshStep?)
    ensures NonNegative(Apply(w, cfg, step))
    ensures WithinCaps(Apply(w, cfg, step), cfg) <==> HasRoom(w, cfg, step)
  {
    hide NonNegative, WithinCaps, RoomFor, FewEnoughOn, CanBoot, MapRows, MapDomains, Refreshed;
    match step
    case StartStep(vm) => TurningOnKeepsCapsIff(w, cfg, vm, Resume);
    case InstallEndsStep(vm, end) =>
      var w' := InstallEnded(w, vm, end);
      if end.BootedFromDisk? && CanBoot(w, vm) {
        TurningOnKeepsCapsIff(w, cfg, vm, BootInstalled);
        CapsIgnoreQueue(w.(rows := w'.rows, domains := w'.domains), w', cfg);
      } else if end.GaveUp? && vm in w.watched {
        StoppingStaysWithinCaps(w, cfg, vm, EndInstall, Stays);
        CapsIgnoreQueue(w.(rows := w'.rows, domains := w'.domains), w', cfg);
      }
    case RefreshStep(otherwise) => RefreshKeepsCapsIff(w, cfg, otherwise);
  }

  lemma StepKeepsCapsIff(w: World, cfg: Config, step: Step)
    requires Inv(w, cfg) && PositiveQueue(w) && Orderly(step)
    ensures NonNegative(Apply(w, cfg, step)) && PositiveQueue(Apply(w, cfg, step))
    ensures WithinCaps(Apply(w, cfg, step), cfg) <==> HasRoom(w, cfg, step)
  {
    hide NonNegative, WithinCaps, Handle, PassOver, AfterFate, MapRows, DropRows;
    match step
    case RequestStep(r, luck, now) => SubmitStaysWithinCaps(w, cfg, r, luck, now);
    case PassStep(lucks, now) => WholePassStaysWithinCaps(w, cfg, lucks, now);
    case StopStep(vm, off) => StoppingStaysWithinCaps(w, cfg, vm, Halt, if off then Off else Stays);
    case DeleteStep(vm, fate) => DeletingStaysWithinCaps(w, cfg, vm, fate);
    case GuestHaltsStep(vm) => HaltingStaysWithinCaps(w, cfg, vm);
    case ExpireStep(cutoff) =>
      ExpiryKeepsRequests(w.queue, cutoff);
      CapsIgnoreQueue(w, Apply(w, cfg, step), cfg);
    case _ => SwitchStaysWithinCaps(w, cfg, step);
  }

  lemma SubmitStaysWithinCaps(w: World, cfg: Config, r: Request, luck: Luck, now: Time)
    requires Inv(w, cfg) && PositiveQueue(w) && Positive(r) && luck.handlerAnswers == ALL_LISTED
    ensures Inv(SubmitRequest(w, cfg, r, luck, now), cfg) && PositiveQueue(SubmitRequest(w, cfg, r, luck, now))
  {
    hide Handle, Inv;
    HandlingStaysWithinCaps(w, cfg, r, luck, now);
    HandleKeepsPositive(w, cfg, r, luck, now);
    CapsIgnoreQueue(Handle(w, cfg, r, luck, now).0, SubmitRequest(w, cfg, r, luck, now), cfg);
  }

  lemma WholePassStaysWithinCaps(w: World, cfg: Config, lucks: Lucks, now: Time)
    requires Inv(w, cfg) && PositiveQueue(w) && forall id :: lucks(id).handlerAnswers == ALL_LISTED
    ensures Inv(QueuePass(w, cfg, lucks, now), cfg) && PositiveQueue(QueuePass(w, cfg, lucks, now))
  {
    hide PassOver, Inv;
    PendingComesFromQueue(w.queue);
    PassStaysWithinCaps(w, cfg, Pending(w.queue), lucks, now);
    PassKeepsPositive(w, cfg, Pending(w.queue), lucks, now);
  }

  ghost predicate Sensible(cfg: Config) {
    cfg.maxVcpus >= 0 && cfg.maxRunning >= 0 && cfg.maxDisk >= 0 && cfg.maxInstalls >= 0
  }

  ghost predicate OrderlyRun(steps: seq<Step>) {
    forall i :: 0 <= i < |steps| ==> Orderly(steps[i])
  }

  /** Whatever the run turns on without admission, or finds on, there is room for where it happens. */
  ghost predicate RoomThroughout(cfg: Config, steps: seq<Step>) {
    forall i :: 0 <= i < |steps| ==> HasRoom(Run(EMPTY, cfg, steps[..i]), cfg, steps[i])
  }

  lemma {:induction false} RoomKeepsCaps(cfg: Config, steps: seq<Step>, n: nat)
    requires Sensible(cfg) && OrderlyRun(steps) && n <= |steps|
    requires forall i :: 0 <= i < n ==> HasRoom(Run(EMPTY, cfg, steps[..i]), cfg, steps[i])
    ensures Inv(Run(EMPTY, cfg, steps[..n]), cfg) && PositiveQueue(Run(EMPTY, cfg, steps[..n]))
  {
    hide WithinCaps, NonNegative, HasRoom, Apply, Orderly;
    if n == 0 {
      EmptyIsWithinCaps(cfg);
      assert steps[..0] == [];
    } else {
      RoomKeepsCaps(cfg, steps, n - 1);
      assert steps[..n][..n - 1] == steps[..n - 1];
      StepKeepsCapsIff(Run(EMPTY, cfg, steps[..n - 1]), cfg, steps[n - 1]);
    }
  }

  lemma EmptyIsWithinCaps(cfg: Config)
    requires Sensible(cfg)
    ensures Inv(EMPTY, cfg) && PositiveQueue(EMPTY)
  {
  }

  lemma NextState(cfg: Config, steps: seq<Step>, i: nat)
    requires i < |steps|
    ensures Run(EMPTY, cfg, steps[..i + 1]) == Apply(Run(EMPTY, cfg, steps[..i]), cfg, steps[i])
  {
    assert steps[..i + 1][..i] == steps[..i];
  }

  lemma {:induction false} CapsNeedRoom(cfg: Config, steps: seq<Step>, n: nat)
    requires Sensible(cfg) && OrderlyRun(steps) && n <= |steps|
    requires forall m :: 0 <= m <= n ==> WithinCaps(Run(EMPTY, cfg, steps[..m]), cfg)
    ensures forall i :: 0 <= i < n ==> HasRoom(Run(EMPTY, cfg, steps[..i]), cfg, steps[i])
  {
    hide WithinCaps, NonNegative, HasRoom, Run, Apply, Orderly;
    if n == 0 {
    } else {
      CapsNeedRoom(cfg, steps, n - 1);
      RoomKeepsCaps(cfg, steps, n - 1);
      StepKeepsCapsIff(Run(EMPTY, cfg, steps[..n - 1]), cfg, steps[n - 1]);
      NextState(cfg, steps, n - 1);
    }
  }

  /**
   Over every run from an empty host with positive sizes, each project's recorded disk and its
   running VMs, the installs under way and the vCPUs in use never exceed their caps, and the
   memory in use never exceeds the usable memory by more than the 0.005 GiB of one rounding,
   if and only if there is room for each VM that `vm.start` or the end of an install turns on
   and each scan finds no more VMs of a project on than may run.
  */
  lemma CapsHoldOverRuns(cfg: Config, steps: seq<Step>)
    requires Sensible(cfg) && OrderlyRun(steps)
    ensures (forall n :: 0 <= n <= |steps| ==> WithinCaps(Run(EMPTY, cfg, steps[..n]), cfg))
            <==> RoomThroughout(cfg, steps)
  {
    hide WithinCaps, HasRoom, Run, Orderly;
    if RoomThroughout(cfg, steps) {
      forall n | 0 <= n <= |steps| ensures WithinCaps(Run(EMPTY, cfg, steps[..n]), cfg) {
        RoomKeepsCaps(cfg, steps, n);
      }
    } else if forall n :: 0 <= n <= |steps| ==> WithinCaps(Run(EMPTY, cfg, steps[..n]), cfg) {
      CapsNeedRoom(cfg, steps, |steps|);
    }
  }
}
