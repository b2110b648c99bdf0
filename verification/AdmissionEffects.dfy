/**
 What the steps of the scheduler do to rows and domains, and what its answers mean, on the
 fields of rows, domains and requests themselves: an install that ends gives its slot back, in
 every reachable state each slot has a watcher that can, and each denial names what is short.
*/
module AdmissionEffects {
  import opened Common
  import opened AdmissionModel

  // ------------------------------------------------------------------ rows and domains by index

  /** The domains of `vm` are on or off as `active` says, all others are as before. */
  ghost predicate Switched(before: seq<Domain>, after: seq<Domain>, vm: VmId, active: bool) {
    && |after| == |before|
    && forall i :: 0 <= i < |before| ==>
         after[i] == if before[i].vm == vm then before[i].(active := active) else before[i]
  }

  /** The rows of `vm` got these two flags, all others are as before. */
  ghost predicate Marked(before: seq<Row>, after: seq<Row>, vm: VmId, running: bool -> bool, installing: bool -> bool) {
    && |after| == |before|
    && forall i :: 0 <= i < |before| ==>
         after[i] == if before[i].vm == vm
                     then before[i].(running := running(before[i].running),
                                     installing := installing(before[i].installing))
                     else before[i]
  }

  lemma {:induction false} DomainsSwitch(domains: seq<Domain>, vm: VmId, active: bool)
    ensures Switched(domains, MapDomains(domains, vm, active), vm, active)
  {
    if domains == [] {
    } else {
      DomainsSwitch(domains[..|domains| - 1], vm, active);
    }
  }

  lemma {:induction false} RowsHalt(rows: seq<Row>, vm: VmId)
    ensures Marked(rows, MapRows(rows, vm, Halt), vm, r => false, i => i)
    ensures Marked(rows, MapRows(rows, vm, Resume), vm, r => true, i => i)
  {
    if rows == [] {
    } else {
      RowsHalt(rows[..|rows| - 1], vm);
    }
  }

  lemma {:induction false} RowsEndInstall(rows: seq<Row>, vm: VmId)
    ensures Marked(rows, MapRows(rows, vm, EndInstall), vm, r => r, i => false)
    ensures Marked(rows, MapRows(rows, vm, BootInstalled), vm, r => true, i => false)
  {
    if rows == [] {
    } else {
      RowsEndInstall(rows[..|rows| - 1], vm);
    }
  }

  lemma {:induction false} RowsDrop(rows: seq<Row>, vm: VmId, r: Row)
    ensures multiset(DropRows(rows, vm))[r] == if r.vm == vm then 0 else multiset(rows)[r]
  {
    if rows == [] {
    } else {
      SplitLast(rows);
      RowsDrop(rows[..|rows| - 1], vm, r);
    }
  }

  lemma {:induction false} DomainsDrop(domains: seq<Domain>, vm: VmId, d: Domain)
    ensures multiset(DropDomains(domains, vm))[d] == if d.vm == vm then 0 else multiset(domains)[d]
  {
    if domains == [] {
    } else {
      SplitLast(domains);
      DomainsDrop(domains[..|domains| - 1], vm, d);
    }
  }

  // ------------------------------------------------------------------ installs give their slots back

  /** The installer of `vm` has powered off: its domain is there, and not on. */
  ghost predicate PoweredOff(domains: seq<Domain>, vm: VmId) {
    && (exists d :: d in domains && d.vm == vm)
    && (forall d :: d in domains && d.vm == vm ==> !d.active)
  }

  /**
   However a watched install ends, no row of its VM is installing afterwards; booted from disk,
   its row and its domain run, and nothing else changes.  A watcher that is not there, or that
   has not seen the installer power off, boots nothing.
  */
  lemma EndedInstallFreesItsSlot(w: World, vm: VmId, end: InstallEnd)
    ensures var s := InstallEnded(w, vm, end);
            && (vm in w.watched && end == GaveUp ==>
                  && s == w.(rows := s.rows, watched := w.watched - {vm})
                  && Marked(w.rows, s.rows, vm, r => r, i => false))
            && (vm in w.watched && end == BootedFromDisk && PoweredOff(w.domains, vm) ==>
                  && s == w.(rows := s.rows, domains := s.domains, watched := w.watched - {vm})
                  && Marked(w.rows, s.rows, vm, r => true, i => false)
                  && Switched(w.domains, s.domains, vm, true))
            && (vm !in w.watched || (end == BootedFromDisk && !PoweredOff(w.domains, vm)) ==> s == w)
  {
    RowsEndInstall(w.rows, vm);
    DomainsSwitch(w.domains, vm, true);
  }

  /** Every install that holds a slot has a watcher. */
  ghost predicate InstallsWatched(w: World) {
    forall i :: 0 <= i < |w.rows| && w.rows[i].installing ==> w.rows[i].vm in w.watched
  }

  lemma HandlingKeepsWatch(w: World, cfg: Config, r: Request, luck: Luck, now: Time)
    requires InstallsWatched(w)
    ensures InstallsWatched(Handle(w, cfg, r, luck, now).0)
  {
    hide Admission, HandlerSizes;
  }

  lemma {:induction false} PassKeepsWatch(w: World, cfg: Config, entries: seq<Entry>, lucks: Lucks, now: Time)
    requires InstallsWatched(w)
    ensures InstallsWatched(PassOver(w, cfg, entries, lucks, now).w)
  {
    hide Handle, RunnerVerdict, SetStatus;
    if entries == [] {
    } else {
      var e := entries[|entries| - 1];
      PassKeepsWatch(w, cfg, entries[..|entries| - 1], lucks, now);
      var mid := PassOver(w, cfg, entries[..|entries| - 1], lucks, now).w;
      HandlingKeepsWatch(Taken(mid, e.id), cfg, e.request, lucks(e.id), now);
    }
  }

  lemma DropsKeepWatch(w: World, vm: VmId, domains: seq<Domain>)
    requires InstallsWatched(w)
    ensures InstallsWatched(w.(rows := DropRows(w.rows, vm), domains := domains))
  {
    var rows := DropRows(w.rows, vm);
    forall i | 0 <= i < |rows| ensures rows[i] in w.rows {
      assert rows[i] in multiset(rows);
      RowsDrop(w.rows, vm, rows[i]);
    }
  }

  lemma {:induction false} RefreshedRows(rows: seq<Row>, domains: seq<Domain>, otherwise: set<VmId>)
    ensures var after := Refreshed(rows, domains, otherwise);
            && |after| == |rows|
            && forall i :: 0 <= i < |rows| ==> after[i] == rows[i].(running := after[i].running)
    ensures var after := Refreshed(rows, domains, otherwise);
            forall i :: 0 <= i < |rows| ==>
              (after[i].running <==>
                if exists d :: d in domains && d.vm == rows[i].vm
                then rows[i].vm !in otherwise && exists d :: d in domains && d.vm == rows[i].vm && d.active
                else rows[i].running)
  {
    if rows == [] {
    } else {
      RefreshedRows(rows[..|rows| - 1], domains, otherwise);
    }
  }

  lemma StepKeepsWatch(w: World, cfg: Config, step: Step)
    requires InstallsWatched(w)
    ensures InstallsWatched(Apply(w, cfg, step))
  {
    hide Handle, PassOver, MapRows, DropRows, Refreshed;
    match step
    case RequestStep(r, luck, now) => HandlingKeepsWatch(w, cfg, r, luck, now);
    case PassStep(lucks, now) => PassKeepsWatch(w, cfg, Pending(w.queue), lucks, now);
    case StopStep(vm, _) => RowsHalt(w.rows, vm);
    case DeleteStep(vm, fate) => DropsKeepWatch(w, vm, AfterFate(w.domains, vm, fate));
    case StartStep(vm) => RowsHalt(w.rows, vm);
    case InstallEndsStep(vm, end) => RowsEndInstall(w.rows, vm);
    case RefreshStep(otherwise) => RefreshedRows(w.rows, w.domains, otherwise);
    case _ =>
  }

  lemma {:induction false} RunKeepsWatch(cfg: Config, steps: seq<Step>)
    ensures InstallsWatched(Run(EMPTY, cfg, steps))
  {
    if steps == [] {
    } else {
      RunKeepsWatch(cfg, steps[..|steps| - 1]);
      StepKeepsWatch(Run(EMPTY, cfg, steps[..|steps| - 1]), cfg, steps[|steps| - 1]);
    }
  }

  /** The rows that hold an install slot. */
  ghost function Slots(rows: seq<Row>): set<int> {
    set i | 0 <= i < |rows| && rows[i].installing
  }

  lemma {:induction false} InstallsAreCounted(rows: seq<Row>)
    ensures Weigh(rows, InstallingOf()) == |Slots(rows)|
  {
    if rows == [] {
      assert Slots(rows) == {};
    } else {
      var n := |rows| - 1;
      InstallsAreCounted(rows[..n]);
      assert Slots(rows) == Slots(rows[..n]) + if rows[n].installing then {n} else {};
    }
  }

  /**
   In every state a run from an empty host reaches, each install that holds a slot has a step
   that gives the slot back: its watcher gives up, and one slot at least is free again.
  */
  lemma {:induction false} NoSlotIsLost(cfg: Config, steps: seq<Step>, i: nat)
    requires i < |Run(EMPTY, cfg, steps).rows| && Run(EMPTY, cfg, steps).rows[i].installing
    ensures var w := Run(EMPTY, cfg, steps);
            var s := Apply(w, cfg, InstallEndsStep(w.rows[i].vm, GaveUp));
            && w.rows[i].vm in w.watched
            && Slots(s.rows) < Slots(w.rows) && i !in Slots(s.rows)
            && |Slots(s.rows)| < |Slots(w.rows)|
  {
    hide Run, MapRows;
    var w := Run(EMPTY, cfg, steps);
    RunKeepsWatch(cfg, steps);
    EndedInstallFreesItsSlot(w, w.rows[i].vm, GaveUp);
    var s := Apply(w, cfg, InstallEndsStep(w.rows[i].vm, GaveUp));
    assert i in Slots(w.rows) && i !in Slots(s.rows);
    SubsetSize(Slots(s.rows), Slots(w.rows) - {i});
  }

  lemma {:induction false} SubsetSize<T>(a: set<T>, b: set<T>)
    requires a <= b
    ensures |a| <= |b|
  {
    if a != {} {
      var x :| x in a;
      SubsetSize(a - {x}, b - {x});
    }
  }

  // ------------------------------------------------------------------ the other steps

  /** Stopping, starting, deleting, a guest going off and a scan, on the rows and domains by index. */
  lemma StepsDoNoMore(w: World, cfg: Config, vm: VmId, off: bool, otherwise: set<VmId>)
    ensures var s := Apply(w, cfg, StopStep(vm, off));
            && s == w.(rows := s.rows, domains := s.domains) && Marked(w.rows, s.rows, vm, r => false, i => i)
            && (if off then Switched(w.domains, s.domains, vm, false) else s.domains == w.domains)
    ensures var s := Apply(w, cfg, GuestHaltsStep(vm));
            s == w.(domains := s.domains) && Switched(w.domains, s.domains, vm, false)
    ensures var s := Apply(w, cfg, StartStep(vm));
            if (exists d :: d in w.domains && d.vm == vm) && (exists r :: r in w.rows && r.vm == vm) then
              && s == w.(rows := s.rows, domains := s.domains) && Marked(w.rows, s.rows, vm, r => true, i => i)
              && Switched(w.domains, s.domains, vm, true)
            else s == w
    ensures var s := Apply(w, cfg, RefreshStep(otherwise));
            s == w.(rows := s.rows) && s.rows == Refreshed(w.rows, w.domains, otherwise)
  {
    RowsHalt(w.rows, vm);
    DomainsSwitch(w.domains, vm, off);
    DomainsSwitch(w.domains, vm, false);
    DomainsSwitch(w.domains, vm, true);
  }

  lemma DeletingTakesTheRowsOnly(w: World, cfg: Config, vm: VmId, fate: Fate, r: Row, d: Domain)
    ensures var s := Apply(w, cfg, DeleteStep(vm, fate));
            && s == w.(rows := s.rows, domains := s.domains)
            && multiset(s.rows)[r] == (if r.vm == vm then 0 else multiset(w.rows)[r])
            && (fate == Stays ==> s.domains == w.domains)
            && (fate == Off ==> Switched(w.domains, s.domains, vm, false))
            && (fate == Gone ==> multiset(s.domains)[d] == if d.vm == vm then 0 else multiset(w.domains)[d])
  {
    RowsDrop(w.rows, vm, r);
    DomainsDrop(w.domains, vm, d);
    DomainsSwitch(w.domains, vm, false);
  }

  /** A created VM has the size it was asked for and runs; only a real install holds a slot and a watcher. */
  lemma CreatedAsAskedFor(w: World, cfg: Config, r: Request, luck: Luck, now: Time)
    requires Handle(w, cfg, r, luck, now).1.CreatedVm?
    ensures var (s, outcome) := Handle(w, cfg, r, luck, now);
            var installs := r.job == Installer(false);
            && outcome == CreatedVm(w.nextVm) && s.nextVm == w.nextVm + 1
            && s.queue == w.queue && s.nextEntry == w.nextEntry
            && s.watched == (if installs then w.watched + {w.nextVm} else w.watched)
            && exists cpu, ramMb, diskGb: int ::
                 && HandlerSizes(r) == Some(Sizes(cpu, ramMb, diskGb))
                 && s.rows == w.rows + [Row(w.nextVm, r.project, true, diskGb, installs)]
                 && s.domains == w.domains + [Domain(w.nextVm, ramMb * 1024, cpu, true)]
  {
    hide Admission, HandlerSizes;
    var sizes := HandlerSizes(r).value;
    assert HandlerSizes(r) == Some(Sizes(sizes.cpu, sizes.ramMb, sizes.diskGb));
  }

  // ------------------------------------------------------------------ what an answer means

  ghost function Sum(s: seq<int>): int {
    if s == [] then 0 else Sum(s[..|s| - 1]) + s[|s| - 1]
  }

  /** What the hypervisor got to say of the domains before its listing failed, if it did. */
  ghost predicate Heard(domains: seq<Domain>, listing: Listing, heard: seq<Domain>) {
    match listing
    case Listed => heard == domains
    case CutAfter(k) => heard <= domains && (|heard| == k || (|heard| < k && heard == domains))
  }

  ghost function MemoryOf(domains: seq<Domain>): seq<int> {
    seq(|domains|, i requires 0 <= i < |domains| => if domains[i].active then domains[i].memKib else 0)
  }

  ghost function CpusOf(domains: seq<Domain>): seq<int> {
    seq(|domains|, i requires 0 <= i < |domains| => if domains[i].active then domains[i].vcpus else 0)
  }

  ghost function DisksOf(rows: seq<Row>, p: ProjectId): seq<int> {
    seq(|rows|, i requires 0 <= i < |rows| => if rows[i].project == p then rows[i].diskGb else 0)
  }

  ghost function RunningRows(rows: seq<Row>, p: ProjectId): set<int> {
    set i | 0 <= i < |rows| && rows[i].project == p && rows[i].running
  }

  lemma {:induction false} DomainsAreSummed(domains: seq<Domain>)
    ensures Weigh(domains, ActiveKib()) == Sum(MemoryOf(domains))
    ensures Weigh(domains, ActiveVcpus()) == Sum(CpusOf(domains))
  {
    if domains == [] {
    } else {
      var before := domains[..|domains| - 1];
      DomainsAreSummed(before);
      assert MemoryOf(domains)[..|before|] == MemoryOf(before);
      assert CpusOf(domains)[..|before|] == CpusOf(before);
    }
  }

  lemma {:induction false} DisksAreSummed(rows: seq<Row>, p: ProjectId)
    ensures Weigh(rows, DiskOf(p)) == Sum(DisksOf(rows, p))
  {
    if rows == [] {
    } else {
      var n := |rows| - 1;
      DisksAreSummed(rows[..n], p);
      assert DisksOf(rows, p)[..n] == DisksOf(rows[..n], p);
    }
  }

  lemma {:induction false} RunningAreCounted(rows: seq<Row>, p: ProjectId)
    ensures Weigh(rows, RunningOf(p)) == |RunningRows(rows, p)|
  {
    if rows == [] {
      assert RunningRows(rows, p) == {};
    } else {
      var n := |rows| - 1;
      RunningAreCounted(rows[..n], p);
      assert RunningRows(rows, p)
             == RunningRows(rows[..n], p) + if rows[n].project == p && rows[n].running then {n} else {};
    }
  }

  /** `n` hundredths is `x` to two decimals, an exact half going to the even hundredth. */
  ghost predicate Hundredths(x: real, n: int) {
    && n as real - 0.5 <= x * 100.0 <= n as real + 0.5
    && (x * 100.0 == n as real - 0.5 || x * 100.0 == n as real + 0.5 ==> n % 2 == 0)
  }

  lemma RoundsToEven(x: real, n: int)
    ensures Hundredths(x, n) <==> Round2(x) * 100.0 == n as real
  {
    var low := (x * 100.0).Floor;
    assert low as real <= x * 100.0 < low as real + 1.0;
    assert Round2(x) * 100.0 == low as real || Round2(x) * 100.0 == (low + 1) as real;
    if Hundredths(x, n) {
      assert n == low || n == low + 1;
    }
  }

  /** A size given as a number: the number. */
  ghost predicate Is(size: Size, x: real) {
    size == Float(x) || exists n: int :: size == Whole(n) && x == n as real
  }

  /**
   Each answer of admission names what is short, memory first: the free memory is `free`
   hundredths of a GiB, and the free vCPUs, the running VMs and the disk are what the listings
   and the rows say.
  */
  lemma DenialsTellWhatIsShort(w: World, cfg: Config, answers: Answers, p: ProjectId, cpu: Size, ramMb: Size,
                               diskGb: Size, c: real, m: real, d: real, ramHeard: seq<Domain>, cpuHeard: seq<Domain>,
                               free: int)
    requires Is(cpu, c) && Is(ramMb, m) && Is(diskGb, d) && !Overflows(ramMb)
    requires Heard(w.domains, answers.ram, ramHeard) && Heard(w.domains, answers.vcpus, cpuHeard)
    requires var left := cfg.usableRam - Sum(MemoryOf(ramHeard)) as real / 1048576.0;
             Hundredths(if left > 0.0 then left else 0.0, free)
    ensures var v := CheckAdmission(w, cfg, answers, p, cpu, ramMb, diskGb);
            var ramFits := m * 100.0 <= free as real * 1024.0;
            var left := cfg.maxVcpus - Sum(CpusOf(cpuHeard));
            var cpuFits := c <= left as real || c <= 0.0;
            var placeFree := |RunningRows(w.rows, p)| < cfg.maxRunning;
            var diskFits := Sum(DisksOf(w.rows, p)) as real + d <= cfg.maxDisk as real;
            && (v == Denied(NoRam) <==> !ramFits)
            && (v == Denied(NoVcpus) <==> ramFits && !cpuFits)
            && (v == Denied(TooManyRunning) <==> ramFits && cpuFits && !placeFree)
            && (v == Denied(NoDisk) <==> ramFits && cpuFits && placeFree && !diskFits)
            && (v == Admitted <==> ramFits && cpuFits && placeFree && diskFits)
  {
    hide Weigh, Round2, FLOAT_LIMIT;
    DomainsAreSummed(ramHeard);
    DomainsAreSummed(cpuHeard);
    DisksAreSummed(w.rows, p);
    RunningAreCounted(w.rows, p);
    assert Seen(w.domains, answers.ram) == ramHeard && Seen(w.domains, answers.vcpus) == cpuHeard;
    RoundsToEven(MaxReal(0.0, cfg.usableRam - UsedGib(w, answers.ram)), free);
  }

  /** A size that is no number makes the check fail at the comparison that first needs it. */
  lemma WhereNoNumberRaises(w: World, cfg: Config, answers: Answers, p: ProjectId, cpu: Size, ramMb: Size, diskGb: Size)
    ensures ramMb == NoNumber ==> CheckAdmission(w, cfg, answers, p, cpu, ramMb, diskGb) == Raises
    ensures cpu == NoNumber && ramMb != NoNumber ==>
              CheckAdmission(w, cfg, answers, p, cpu, ramMb, diskGb)
              == var v := CheckAdmission(w, cfg, answers, p, Float(0.0), ramMb, Float(0.0));
                 if v.Raises? || v == Denied(NoRam) then v else Raises
    ensures diskGb == NoNumber && cpu != NoNumber ==>
              CheckAdmission(w, cfg, answers, p, cpu, ramMb, diskGb)
              == var v := CheckAdmission(w, cfg, answers, p, cpu, ramMb, Float(0.0));
                 if v == Admitted || v == Denied(NoDisk) then Raises else v
  {
    hide FLOAT_LIMIT;
  }

  /** Installers are denied first by the number of installs going on, other requests never. */
  lemma InstallersWaitForASlot(w: World, cfg: Config, answers: Answers, r: Request, sizes: Sizes)
    ensures Admission(w, cfg, answers, r, sizes) == Denied(TooManyInstalls) <==>
              (r.job == Installer(true) || r.job == Installer(false)) && |Slots(w.rows)| >= cfg.maxInstalls
    ensures Admission(w, cfg, answers, r, sizes) != Denied(TooManyInstalls) ==>
              Admission(w, cfg, answers, r, sizes)
              == CheckAdmission(w, cfg, answers, r.project, Whole(sizes.cpu), Whole(sizes.ramMb), Whole(sizes.diskGb))
  {
    hide FLOAT_LIMIT, Weigh;
    InstallsAreCounted(w.rows);
  }

  // ------------------------------------------------------------------ where division ends

  ghost function TwoTo(n: nat): int {
    if n == 0 then 1 else 2 * TwoTo(n - 1)
  }

  lemma {:induction false} TwoToAdds(a: nat, b: nat)
    ensures TwoTo(a + b) == TwoTo(a) * TwoTo(b)
  {
    if a > 0 {
      TwoToAdds(a - 1, b);
      assert TwoTo(a + b) == 2 * TwoTo(a - 1 + b);
    }
  }

  lemma SmallPowers()
    ensures TwoTo(5) == 32 && TwoTo(7) == 128 && TwoTo(10) == 1024
  {
  }

  lemma {:induction false} PowersOfTheLimit()
    ensures TwoTo(54) == 0x40_0000_0000_0000
    ensures TwoTo(196) == 0x1_0000_0000_0000_0000_0000_0000_0000_0000_0000_0000_0000_0000_0
  {
    hide TwoTo;
    SmallPowers();
    TwoToAdds(7, 7);
    TwoToAdds(14, 14);
    TwoToAdds(28, 14);
    TwoToAdds(42, 7);
    TwoToAdds(49, 5);
    TwoToAdds(49, 49);
    TwoToAdds(98, 98);
  }

  lemma {:induction false} LimitIs()
    ensures FLOAT_LIMIT == 1024 * (TwoTo(1024) - TwoTo(970))
  {
    hide TwoTo;
    SmallPowers();
    PowersOfTheLimit();
    TwoToAdds(196, 196);
    TwoToAdds(392, 392);
    TwoToAdds(784, 196);
    TwoToAdds(10, 970);
    TwoToAdds(10, 1024);
    TwoToAdds(54, 980);
  }

  /**
   A whole number divided by 1024 is no float any more exactly from half a last place beyond the
   largest float on, which is 2^1024 - 2^970; there it would round to 2^1024.
  */
  lemma DivisionOverflowsIff(n: int)
    ensures Overflows(Whole(n)) <==>
              n >= 1024 * (TwoTo(1024) - TwoTo(970)) || -n >= 1024 * (TwoTo(1024) - TwoTo(970))
  {
    hide TwoTo;
    LimitIs();
    hide FLOAT_LIMIT;
  }

  // ------------------------------------------------------------------ how sizes are read

  /** What the handler makes of a size: its number cut towards zero, or the template's. */
  lemma HandlerReadsSizes(f: Field, default: int, n: int)
    ensures OrDefault(f, default) == Some(n) <==>
            match f
            case Absent => n == default
            case Null => n == default
            case Given(m) => (m != 0 && n == m) || (m == 0 && n == default)
            case Fraction(x) =>
              || (x == 0.0 && n == default)
              || (x > 0.0 && n as real <= x < n as real + 1.0)
              || (x < 0.0 && n as real - 1.0 < x <= n as real)
            case Text(reading) => (reading == Blank && n == default) || reading == Numeral(n)
  {
    if f.Fraction? && f.x < 0.0 {
      var low := (-f.x).Floor;
      assert low as real <= -f.x < low as real + 1.0;
    }
  }

  lemma HandlerSizesAre(r: Request, cpu: int, ramMb: int, diskGb: int)
    ensures HandlerSizes(r) == Some(Sizes(cpu, ramMb, diskGb)) <==>
            && OrDefault(r.cpu, r.defaults.cpu) == Some(cpu)
            && OrDefault(r.ramMb, r.defaults.ramMb) == Some(ramMb)
            && OrDefault(r.diskGb, r.defaults.diskGb) == Some(diskGb)
  {
  }

  /** The runner decides on its own defaults where a size is left out, and on no null or text at all. */
  lemma RunnerReadsSizes(w: World, cfg: Config, answers: Answers, r: Request, cpu: Size, ramMb: Size, diskGb: Size)
    requires RunnerReads(r.cpu, 2, cpu) && RunnerReads(r.ramMb, 2048, ramMb) && RunnerReads(r.diskGb, 20, diskGb)
    ensures RunnerVerdict(w, cfg, answers, r) == CheckAdmission(w, cfg, answers, r.project, cpu, ramMb, diskGb)
  {
  }

  ghost predicate RunnerReads(f: Field, default: int, size: Size) {
    match f
    case Absent => size == Whole(default)
    case Null => size == NoNumber
    case Given(n) => size == Whole(n)
    case Fraction(x) => size == Float(x)
    case Text(_) => size == NoNumber
  }

  // ------------------------------------------------------------------ the handler's answers

  /**
   What a handler answers: it fails without effect on an invalid request, on sizes it cannot read,
   on a check that raises and on a creation that breaks; a denied request waits in the queue from
   now on; an admitted one is created.
  */
  lemma HandlerAnswers(w: World, cfg: Config, r: Request, luck: Luck, now: Time)
    ensures var (s, outcome) := Handle(w, cfg, r, luck, now);
            if luck.provisioning == Invalid || HandlerSizes(r) == None then s == w && outcome == Failed
            else
              match Admission(w, cfg, luck.handlerAnswers, r, HandlerSizes(r).value)
              case Denied(_) =>
                && outcome == Queued(w.nextEntry) && s.nextEntry == w.nextEntry + 1
                && s == w.(queue := w.queue + [Entry(w.nextEntry, r, Waiting, now)], nextEntry := s.nextEntry)
              case Raises => s == w && outcome == Failed
              case Admitted => if luck.provisioning == Breaks then s == w && outcome == Failed else outcome.CreatedVm?
  {
    hide Admission, HandlerSizes;
  }
}
