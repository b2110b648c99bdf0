/**
 Where the caps end: what a listing that fails, the end of an install and a stop the guest
 ignores do to them, and why stops that take effect leave a scan nothing to find.
*/
module AdmissionLimits {
  import opened Common
  import opened AdmissionModel
  import opened AdmissionCaps
  import opened AdmissionRuns

  predicate PositiveSizes(sizes: Sizes) {
    sizes.cpu > 0 && sizes.ramMb > 0 && sizes.diskGb > 0
  }

  // ------------------------------------------------------------------ when libvirt does not answer

  /** Admission on these answers always leaves the caps whole. */
  ghost predicate Protects(answers: Answers) {
    forall cfg: Config, w: World, r: Request, sizes: Sizes ::
      Inv(w, cfg) && PositiveSizes(sizes) && Admission(w, cfg, answers, r, sizes).Admitted? ==>
        WithinCaps(WithVm(w, r, sizes), cfg)
  }

  /** Domains that are shut off. */
  function ShutOff(k: nat): seq<Domain> {
    if k == 0 then [] else ShutOff(k - 1) + [Domain(k, 1048576, 2, false)]
  }

  lemma {:induction false} ShutOffUseNothing(k: nat)
    ensures |ShutOff(k)| == k
    ensures Weigh(ShutOff(k), ActiveVcpus()) == 0 && Weigh(ShutOff(k), ActiveKib()) == 0
    ensures forall i :: 0 <= i < k ==> ShutOff(k)[i].vcpus >= 0 && ShutOff(k)[i].memKib >= 0
  {
    if k == 0 {
    } else {
      ShutOffUseNothing(k - 1);
      WeighAppend(ShutOff(k - 1), Domain(k, 1048576, 2, false), ActiveVcpus());
      WeighAppend(ShutOff(k - 1), Domain(k, 1048576, 2, false), ActiveKib());
    }
  }

  const TWO_VCPUS: Config := Config(8.0, 2, 4, 80, 1)
  const LITTLE_RAM: Config := Config(1.2, 8, 4, 80, 1)

  /** A host where the last of `k + 1` domains is on, with two vCPUs and one GiB. */
  function LastOn(k: nat): World {
    EMPTY.(domains := ShutOff(k) + [Domain(k + 1, 1048576, 2, true)])
  }

  lemma LastOnUses(k: nat)
    ensures Weigh(LastOn(k).domains, ActiveVcpus()) == 2 && Weigh(LastOn(k).domains, ActiveKib()) == 1048576
    ensures UsedVcpus(LastOn(k), CutAfter(k)) == 0 && UsedGib(LastOn(k), CutAfter(k)) == 0.0
    ensures NonNegative(LastOn(k))
  {
    hide Weigh;
    var last := Domain(k + 1, 1048576, 2, true);
    ShutOffUseNothing(k);
    WeighAppend(ShutOff(k), last, ActiveVcpus());
    WeighAppend(ShutOff(k), last, ActiveKib());
    assert (ShutOff(k) + [last])[..k] == ShutOff(k);
  }

  lemma LastOnFits(k: nat, cfg: Config)
    requires cfg == TWO_VCPUS || cfg == LITTLE_RAM
    ensures Inv(LastOn(k), cfg)
  {
    LastOnUses(k);
    hide ShutOff;
  }

  lemma {:induction false} PrefixUsesLess(domains: seq<Domain>, k: nat)
    requires k <= |domains| && forall i :: 0 <= i < |domains| ==> domains[i].memKib >= 0 && domains[i].vcpus >= 0
    ensures Weigh(domains[..k], ActiveKib()) <= Weigh(domains, ActiveKib())
    ensures Weigh(domains[..k], ActiveVcpus()) <= Weigh(domains, ActiveVcpus())
  {
    if k == |domains| {
      assert domains[..k] == domains;
    } else {
      assert domains[..|domains| - 1][..k] == domains[..k];
      PrefixUsesLess(domains[..|domains| - 1], k);
    }
  }

  lemma PartialSumsAreLess(w: World, listing: Listing)
    requires NonNegative(w)
    ensures UsedGib(w, listing) <= UsedGib(w, Listed) && UsedVcpus(w, listing) <= UsedVcpus(w, Listed)
  {
    if listing.CutAfter? && listing.k < |w.domains| {
      PrefixUsesLess(w.domains, listing.k);
    }
  }

  /** A request of one GiB without sizes of its own. */
  function PlainRequest(p: ProjectId): Request {
    Request(p, CloudImage, Absent, Absent, Absent, Sizes(2, 1024, 10))
  }

  /** One more VM is admitted although there is no room for its vCPUs. */
  lemma CutOverfillsVcpus(k: nat, answers: Answers, p: ProjectId)
    requires answers.vcpus == CutAfter(k)
    ensures !Protects(answers)
  {
    hide ShutOff, Weigh;
    var w, sizes := LastOn(k), Sizes(2, 1024, 10);
    LastOnUses(k);
    LastOnFits(k, TWO_VCPUS);
    PartialSumsAreLess(w, answers.ram);
    AdmitsOneMore(w, TWO_VCPUS, answers, PlainRequest(p), sizes);
    WeighAppend(w.domains, Domain(0, 1048576, 2, true), ActiveVcpus());
    assert !WithinCaps(WithVm(w, PlainRequest(p), sizes), TWO_VCPUS);
  }

  /** One more VM is admitted although there is no room for its memory. */
  lemma CutOverfillsRam(k: nat, answers: Answers, p: ProjectId)
    requires answers.ram == CutAfter(k)
    ensures !Protects(answers)
  {
    hide ShutOff, Weigh;
    var w, sizes := LastOn(k), Sizes(1, 1024, 10);
    LastOnUses(k);
    LastOnFits(k, LITTLE_RAM);
    PartialSumsAreLess(w, answers.vcpus);
    AdmitsOneMore(w, LITTLE_RAM, answers, PlainRequest(p), sizes);
    WeighAppend(w.domains, Domain(0, 1048576, 1, true), ActiveKib());
    assert !WithinCaps(WithVm(w, PlainRequest(p), sizes), LITTLE_RAM);
  }

  lemma AdmitsOneMore(w: World, cfg: Config, answers: Answers, r: Request, sizes: Sizes)
    requires w.rows == [] && sizes.ramMb == 1024 && sizes.diskGb == 10 && r.job.CloudImage?
    requires cfg.maxRunning >= 1 && cfg.maxDisk == 80
    requires UsedGib(w, answers.ram) <= cfg.usableRam - 1.1
    requires UsedVcpus(w, answers.vcpus) + sizes.cpu <= cfg.maxVcpus
    ensures Admission(w, cfg, answers, r, sizes).Admitted?
  {
    RoundingError(MaxReal(0.0, cfg.usableRam - UsedGib(w, answers.ram)));
  }

  /**
   Admission protects the caps exactly when libvirt lists all its domains both times it is asked:
   a listing that fails after any number of domains lets a full host admit one more VM.
  */
  lemma CapsNeedTheListing(answers: Answers, p: ProjectId)
    ensures answers == ALL_LISTED <==> Protects(answers)
  {
    if answers == ALL_LISTED {
      forall cfg: Config, w: World, r: Request, sizes: Sizes
        | Inv(w, cfg) && PositiveSizes(sizes) && Admission(w, cfg, answers, r, sizes).Admitted?
        ensures WithinCaps(WithVm(w, r, sizes), cfg)
      {
        CreatingStaysWithinCaps(w, cfg, r, sizes);
      }
    } else if answers.vcpus.CutAfter? {
      CutOverfillsVcpus(answers.vcpus.k, answers, p);
    } else {
      CutOverfillsRam(answers.ram.k, answers, p);
    }
  }

  // ------------------------------------------------------------------ runs that break a cap

  const LUCKY: Luck := Luck(ALL_LISTED, ALL_LISTED, Works)

  function Ask(p: ProjectId, job: Job): Step {
    RequestStep(Request(p, job, Given(2), Given(1024), Given(10), Sizes(2, 2048, 20)), LUCKY, 0)
  }

  /** An install takes the last vCPUs and powers off; another VM is admitted; the watcher boots the first. */
  function InstallRun(p: ProjectId): seq<Step> {
    [Ask(p, Installer(false)), GuestHaltsStep(0), Ask(p, CloudImage), InstallEndsStep(0, BootedFromDisk)]
  }

  lemma EmptyAdmits(p: ProjectId, job: Job, cfg: Config)
    requires cfg == TWO_VCPUS || cfg == ONE_RUNNING
    ensures Admission(EMPTY, cfg, ALL_LISTED, Ask(p, job).request, Sizes(2, 1024, 10)).Admitted?
  {
    RoundingError(MaxReal(0.0, cfg.usableRam - UsedGib(EMPTY, Listed)));
  }

  /** What the first request leaves. */
  lemma FirstVm(p: ProjectId, job: Job, cfg: Config)
    requires cfg == TWO_VCPUS || cfg == ONE_RUNNING
    ensures var w := Apply(EMPTY, cfg, Ask(p, job));
            && w.rows == [Row(0, p, true, 10, job.Installer? && !job.testBoot)]
            && w.domains == [Domain(0, 1048576, 2, true)]
            && w.watched == (if job == Installer(false) then {0} else {}) && w.nextVm == 1
  {
    hide Apply, Admission;
    EmptyAdmits(p, job, cfg);
    FirstOf(EMPTY, p, job, cfg);
  }

  lemma FirstOf(w: World, p: ProjectId, job: Job, cfg: Config)
    requires w.rows == [] && w.domains == [] && w.watched == {} && w.nextVm == 0
    requires Admission(w, cfg, ALL_LISTED, Ask(p, job).request, Sizes(2, 1024, 10)).Admitted?
    ensures var w' := Apply(w, cfg, Ask(p, job));
            && w'.rows == [Row(0, p, true, 10, job.Installer? && !job.testBoot)]
            && w'.domains == [Domain(0, 1048576, 2, true)]
            && w'.watched == (if job == Installer(false) then {0} else {}) && w'.nextVm == 1
  {
    hide Apply, Admission;
    AskCreates(w, p, job, cfg);
  }

  /** An admitted request creates its VM. */
  lemma AskCreates(w: World, p: ProjectId, job: Job, cfg: Config)
    requires Admission(w, cfg, ALL_LISTED, Ask(p, job).request, Sizes(2, 1024, 10)).Admitted?
    ensures var created := WithVm(w, Ask(p, job).request, Sizes(2, 1024, 10));
            created.accepted == w.accepted && Apply(w, cfg, Ask(p, job)) == created.(accepted := w.accepted + 1)
  {
    hide Admission;
    assert HandlerSizes(Ask(p, job).request) == Some(Sizes(2, 1024, 10));
    hide HandlerSizes;
  }

  lemma SecondVm(w: World, p: ProjectId, cfg: Config)
    requires cfg == TWO_VCPUS || cfg == ONE_RUNNING
    requires |w.rows| == 1 && w.rows[0].project == p && w.rows[0].diskGb == 10 && w.nextVm == 1
    requires |w.domains| == 1 && w.domains[0].memKib == 1048576 && w.domains[0].vcpus == 2
    requires w.rows[0].running ==> cfg == TWO_VCPUS
    requires w.domains[0].active ==> cfg == ONE_RUNNING
    ensures var w' := Apply(w, cfg, Ask(p, CloudImage));
            && w'.rows == w.rows + [Row(1, p, true, 10, false)]
            && w'.domains == w.domains + [Domain(1, 1048576, 2, true)] && w'.watched == w.watched
  {
    assert w.rows == [] + [w.rows[0]] && w.domains == [] + [w.domains[0]];
    WeighAppend([], w.rows[0], RunningOf(p));
    WeighAppend([], w.rows[0], DiskOf(p));
    WeighAppend([], w.domains[0], ActiveVcpus());
    WeighAppend([], w.domains[0], ActiveKib());
    RoundingError(MaxReal(0.0, cfg.usableRam - UsedGib(w, Listed)));
  }

  lemma {:induction false} RunInSteps(cfg: Config, a: Step, b: Step, c: Step, d: Step)
    ensures Run(EMPTY, cfg, [a, b, c, d])
            == Apply(Apply(Apply(Apply(EMPTY, cfg, a), cfg, b), cfg, c), cfg, d)
  {
    hide Apply;
    assert [a, b, c, d][..3] == [a, b, c] && [a, b, c][..2] == [a, b] && [a, b][..1] == [a] && [a][..0] == [];
    assert Run(EMPTY, cfg, [a]) == Apply(EMPTY, cfg, a);
    assert Run(EMPTY, cfg, [a, b]) == Apply(Run(EMPTY, cfg, [a]), cfg, b);
    assert Run(EMPTY, cfg, [a, b, c]) == Apply(Run(EMPTY, cfg, [a, b]), cfg, c);
  }

  /** The end of an install overfills a host: four vCPUs are in use where two may be. */
  lemma InstallEndBreaksCaps(p: ProjectId)
    ensures OrderlyRun(InstallRun(p)) && !WithinCaps(Run(EMPTY, TWO_VCPUS, InstallRun(p)), TWO_VCPUS)
  {
    hide Apply, Run;
    var s := InstallRun(p);
    var w1 := Apply(EMPTY, TWO_VCPUS, s[0]);
    var w2 := Apply(w1, TWO_VCPUS, s[1]);
    var w3 := Apply(w2, TWO_VCPUS, s[2]);
    FirstVm(p, Installer(false), TWO_VCPUS);
    FirstHalts(w1, p);
    SecondVm(w2, p, TWO_VCPUS);
    FirstBoots(w3, p);
    RunInSteps(TWO_VCPUS, s[0], s[1], s[2], s[3]);
  }

  lemma FirstHalts(w: World, p: ProjectId)
    requires w.domains == [Domain(0, 1048576, 2, true)]
    ensures Apply(w, TWO_VCPUS, GuestHaltsStep(0)) == w.(domains := [Domain(0, 1048576, 2, false)])
  {
    assert w.domains[..0] == [];
    assert MapDomains(w.domains, 0, false) == MapDomains([], 0, false) + [Domain(0, 1048576, 2, false)];
  }

  lemma FirstBoots(w: World, p: ProjectId)
    requires w.domains == [Domain(0, 1048576, 2, false)] + [Domain(1, 1048576, 2, true)] && 0 in w.watched
    ensures Weigh(Apply(w, TWO_VCPUS, InstallEndsStep(0, BootedFromDisk)).domains, ActiveVcpus()) == 4
  {
    var first, second := Domain(0, 1048576, 2, false), Domain(1, 1048576, 2, true);
    assert w.domains[0] == first && w.domains[1] == second;
    StartingAdds(w.domains, 0);
    WeighAppend([first], second, ActiveVcpus());
    WeighAppend([first], second, IdleVcpus(0));
    assert [first] == [] + [first];
    WeighAppend([], first, ActiveVcpus());
    WeighAppend([], first, IdleVcpus(0));
  }

  const ONE_RUNNING: Config := Config(8.0, 8, 1, 80, 1)

  /** A guest ignores its stop; another VM is admitted; a scan finds the first still running. */
  function IgnoredStopRun(p: ProjectId): seq<Step> {
    [Ask(p, CloudImage), StopStep(0, false), Ask(p, CloudImage), RefreshStep({})]
  }

  /** A project of one running VM at most ends up with two. */
  lemma IgnoredStopBreaksRunningCap(p: ProjectId)
    ensures OrderlyRun(IgnoredStopRun(p)) && !WithinCaps(Run(EMPTY, ONE_RUNNING, IgnoredStopRun(p)), ONE_RUNNING)
  {
    hide Apply, Run;
    var s := IgnoredStopRun(p);
    var w1 := Apply(EMPTY, ONE_RUNNING, s[0]);
    var w2 := Apply(w1, ONE_RUNNING, s[1]);
    var w3 := Apply(w2, ONE_RUNNING, s[2]);
    FirstVm(p, CloudImage, ONE_RUNNING);
    FirstIgnores(w1, p);
    SecondVm(w2, p, ONE_RUNNING);
    BothFound(w3, p);
    RunInSteps(ONE_RUNNING, s[0], s[1], s[2], s[3]);
  }

  lemma FirstIgnores(w: World, p: ProjectId)
    requires w.rows == [Row(0, p, true, 10, false)]
    ensures Apply(w, ONE_RUNNING, StopStep(0, false)) == w.(rows := [Row(0, p, false, 10, false)])
  {
    assert w.rows[..0] == [];
    assert MapRows(w.rows, 0, Halt) == MapRows([], 0, Halt) + [Row(0, p, false, 10, false)];
  }

  lemma BothFound(w: World, p: ProjectId)
    requires w.rows == [Row(0, p, false, 10, false)] + [Row(1, p, true, 10, false)]
    requires w.domains == [Domain(0, 1048576, 2, true)] + [Domain(1, 1048576, 2, true)]
    ensures Weigh(Apply(w, ONE_RUNNING, RefreshStep({})).rows, RunningOf(p)) == 2
  {
    var first, second := w.rows[0], w.rows[1];
    assert w.domains[0].vm == 0 && w.domains[1].vm == 1;
    assert IsOn(w.domains, 0) && IsOn(w.domains, 1);
    RefreshCounts(w.rows, w.domains, {}, p);
    WeighAppend([first], second, FoundOf(p, w.domains, {}));
    assert [first] == [] + [first];
    WeighAppend([], first, FoundOf(p, w.domains, {}));
  }

  // ------------------------------------------------------------------ when stops take effect

  /** A VM recorded as not running is off. */
  ghost predicate Tracks(w: World) {
    && (forall i :: 0 <= i < |w.rows| ==> w.rows[i].vm < w.nextVm)
    && (forall d :: d in w.domains ==> d.vm < w.nextVm)
    && (forall i :: 0 <= i < |w.rows| && !w.rows[i].running ==> !IsOn(w.domains, w.rows[i].vm))
  }

  /** Stops take effect, and nobody pauses a VM. */
  predicate Obedient(step: Step) {
    (step.StopStep? ==> step.off) && (step.RefreshStep? ==> step.otherwise == {})
  }

  lemma {:induction false} WeighMonotone<T>(s: seq<T>, f: T -> int, g: T -> int)
    requires forall i :: 0 <= i < |s| ==> f(s[i]) <= g(s[i])
    ensures Weigh(s, f) <= Weigh(s, g)
  {
    if s == [] {
    } else {
      WeighMonotone(s[..|s| - 1], f, g);
    }
  }

  /** Then a scan finds nothing on that was not recorded as running. */
  lemma ScanFindsNothingNew(w: World, cfg: Config)
    requires Tracks(w) && WithinCaps(w, cfg)
    ensures FewEnoughOn(w, cfg, {})
  {
    forall p ensures Weigh(w.rows, FoundOf(p, w.domains, {})) <= cfg.maxRunning {
      WeighMonotone(w.rows, FoundOf(p, w.domains, {}), RunningOf(p));
    }
  }

  lemma {:induction false} MapDomainsOn(domains: seq<Domain>, vm: VmId, active: bool, v: VmId)
    ensures IsOn(MapDomains(domains, vm, active), v)
            <==> if v == vm then active && IsDefined(domains, v) else IsOn(domains, v)
    ensures IsDefined(MapDomains(domains, vm, active), v) <==> IsDefined(domains, v)
  {
    if domains == [] {
    } else {
      var before, last := domains[..|domains| - 1], domains[|domains| - 1];
      MapDomainsOn(before, vm, active, v);
      assert domains == before + [last];
    }
  }

  lemma {:induction false} DropDomainsAre(domains: seq<Domain>, vm: VmId)
    ensures forall d :: d in DropDomains(domains, vm) <==> d in domains && d.vm != vm
  {
    if domains == [] {
    } else {
      assert domains == domains[..|domains| - 1] + [domains[|domains| - 1]];
      DropDomainsAre(domains[..|domains| - 1], vm);
    }
  }

  lemma {:induction false} MapRowsShape(rows: seq<Row>, vm: VmId, change: Change)
    ensures |MapRows(rows, vm, change)| == |rows|
    ensures forall i :: 0 <= i < |rows| ==>
              MapRows(rows, vm, change)[i] == if rows[i].vm == vm then Changed(rows[i], change) else rows[i]
  {
    if rows == [] {
    } else {
      MapRowsShape(rows[..|rows| - 1], vm, change);
    }
  }

  lemma {:induction false} DropRowsAre(rows: seq<Row>, vm: VmId)
    ensures forall r :: r in DropRows(rows, vm) <==> r in rows && r.vm != vm
  {
    if rows == [] {
    } else {
      assert rows == rows[..|rows| - 1] + [rows[|rows| - 1]];
      DropRowsAre(rows[..|rows| - 1], vm);
    }
  }

  /** A domain list that turns on at most `vm`, and nothing new. */
  ghost predicate OnlyOn(before: seq<Domain>, after: seq<Domain>, vm: VmId) {
    && (forall d :: d in after ==> IsDefined(before, d.vm))
    && (forall v :: v != vm && IsOn(after, v) ==> IsOn(before, v))
  }

  lemma MapOnlyOn(domains: seq<Domain>, vm: VmId, active: bool)
    ensures OnlyOn(domains, MapDomains(domains, vm, active), vm)
  {
    var after := MapDomains(domains, vm, active);
    forall v ensures v != vm && IsOn(after, v) ==> IsOn(domains, v) {
      MapDomainsOn(domains, vm, active, v);
    }
    forall d | d in after ensures IsDefined(domains, d.vm) {
      MapDomainsOn(domains, vm, active, d.vm);
      assert IsDefined(after, d.vm);
    }
  }

  lemma FateOnlyOn(domains: seq<Domain>, vm: VmId, fate: Fate)
    ensures OnlyOn(domains, AfterFate(domains, vm, fate), vm)
    ensures !fate.Stays? ==> !IsOn(AfterFate(domains, vm, fate), vm)
    ensures forall v :: IsOn(AfterFate(domains, vm, fate), v) ==> IsOn(domains, v)
  {
    hide MapDomains, DropDomains;
    MapOnlyOn(domains, vm, false);
    MapDomainsOn(domains, vm, false, vm);
    DropDomainsAre(domains, vm);
    forall d | d in domains ensures IsDefined(domains, d.vm) {
    }
  }

  /** Rows of `vm` change to a state that tells whether it is on; the others stay. */
  lemma ChangeTracks(w: World, w': World, vm: VmId, change: Change)
    requires Tracks(w) && w'.nextVm == w.nextVm && w'.rows == MapRows(w.rows, vm, change)
    requires OnlyOn(w.domains, w'.domains, vm)
    requires forall i :: 0 <= i < |w.rows| && w.rows[i].vm == vm && !Changed(w.rows[i], change).running ==>
                           !IsOn(w'.domains, vm)
    ensures Tracks(w')
  {
    MapRowsShape(w.rows, vm, change);
    forall d | d in w'.domains ensures d.vm < w'.nextVm {
      assert IsDefined(w.domains, d.vm);
    }
  }

  lemma DeleteTracks(w: World, vm: VmId, fate: Fate)
    requires Tracks(w)
    ensures Tracks(w.(rows := DropRows(w.rows, vm), domains := AfterFate(w.domains, vm, fate)))
  {
    hide AfterFate, DropRows;
    FateOnlyOn(w.domains, vm, fate);
    DropRowsAre(w.rows, vm);
    var w' := w.(rows := DropRows(w.rows, vm), domains := AfterFate(w.domains, vm, fate));
    forall i | 0 <= i < |w'.rows|
      ensures w'.rows[i].vm < w.nextVm && (!w'.rows[i].running ==> !IsOn(w'.domains, w'.rows[i].vm))
    {
      assert w'.rows[i] in w.rows;
    }
    forall d | d in w'.domains ensures d.vm < w.nextVm {
      assert IsDefined(w.domains, d.vm);
    }
  }

  lemma RefreshTracks(w: World)
    requires Tracks(w)
    ensures Tracks(w.(rows := Refreshed(w.rows, w.domains, {})))
  {
    hide Refreshed;
    RefreshShape(w.rows, w.domains, {});
  }

  lemma WithVmTracks(w: World, r: Request, sizes: Sizes)
    requires Tracks(w)
    ensures Tracks(WithVm(w, r, sizes))
  {
    var w' := WithVm(w, r, sizes);
    forall i | 0 <= i < |w'.rows| && !w'.rows[i].running ensures !IsOn(w'.domains, w'.rows[i].vm) {
      assert w'.rows[i] == w.rows[i];
      assert forall d :: d in w'.domains && d.vm < w.nextVm ==> d in w.domains;
    }
  }

  lemma TracksIgnoresQueue(w: World, w': World)
    requires w'.rows == w.rows && w'.domains == w.domains && w'.nextVm == w.nextVm
    ensures Tracks(w) <==> Tracks(w')
  {
  }

  lemma HandleTracks(w: World, cfg: Config, r: Request, luck: Luck, now: Time)
    requires Tracks(w)
    ensures Tracks(Handle(w, cfg, r, luck, now).0)
  {
    hide Tracks, Admission;
    var (w', outcome) := Handle(w, cfg, r, luck, now);
    if outcome.CreatedVm? {
      WithVmTracks(w, r, HandlerSizes(r).value);
    } else {
      TracksIgnoresQueue(w, w');
    }
  }

  lemma {:induction false} PassTracks(w: World, cfg: Config, entries: seq<Entry>, lucks: Lucks, now: Time)
    requires Tracks(w)
    ensures Tracks(PassOver(w, cfg, entries, lucks, now).w)
  {
    hide Tracks, Handle, RunnerVerdict;
    if entries == [] {
    } else {
      var before, e := entries[..|entries| - 1], entries[|entries| - 1];
      PassTracks(w, cfg, before, lucks, now);
      var mid := PassOver(w, cfg, before, lucks, now).w;
      TracksIgnoresQueue(mid, Taken(mid, e.id));
      HandleTracks(Taken(mid, e.id), cfg, e.request, lucks(e.id), now);
      TracksIgnoresQueue(Handle(Taken(mid, e.id), cfg, e.request, lucks(e.id), now).0,
                         Promote(mid, cfg, e, lucks(e.id), now));
    }
  }

  lemma StepTracks(w: World, cfg: Config, step: Step)
    requires Tracks(w) && Obedient(step)
    ensures Tracks(Apply(w, cfg, step))
  {
    hide Tracks, Handle, PassOver, MapRows, MapDomains, AfterFate, DropRows, Refreshed;
    match step
    case RequestStep(r, luck, now) =>
      HandleTracks(w, cfg, r, luck, now);
      TracksIgnoresQueue(Handle(w, cfg, r, luck, now).0, Apply(w, cfg, step));
    case PassStep(lucks, now) => PassTracks(w, cfg, Pending(w.queue), lucks, now);
    case StopStep(vm, off) =>
      FateOnlyOn(w.domains, vm, Off);
      ChangeTracks(w, Apply(w, cfg, step), vm, Halt);
    case DeleteStep(vm, fate) => DeleteTracks(w, vm, fate);
    case GuestHaltsStep(vm) => HaltTracks(w, vm);
    case StartStep(vm) =>
      MapOnlyOn(w.domains, vm, true);
      if Started(w, vm) != w {
        ChangeTracks(w, Started(w, vm), vm, Resume);
      }
    case InstallEndsStep(vm, end) => InstallEndTracks(w, vm, end);
    case RefreshStep(otherwise) => RefreshTracks(w);
    case ExpireStep(cutoff) => TracksIgnoresQueue(w, Apply(w, cfg, step));
  }

  lemma HaltTracks(w: World, vm: VmId)
    requires Tracks(w)
    ensures Tracks(w.(domains := AfterFate(w.domains, vm, Off)))
  {
    hide AfterFate;
    FateOnlyOn(w.domains, vm, Off);
    forall d | d in AfterFate(w.domains, vm, Off) ensures d.vm < w.nextVm {
      assert IsDefined(w.domains, d.vm);
    }
  }

  lemma InstallEndTracks(w: World, vm: VmId, end: InstallEnd)
    requires Tracks(w)
    ensures Tracks(InstallEnded(w, vm, end))
  {
    hide MapRows, MapDomains;
    var w' := InstallEnded(w, vm, end);
    if end.BootedFromDisk? && CanBoot(w, vm) {
      MapOnlyOn(w.domains, vm, true);
      ChangeTracks(w, w', vm, BootInstalled);
    } else if end.GaveUp? && vm in w.watched {
      FateOnlyOn(w.domains, vm, Stays);
      ChangeTracks(w, w', vm, EndInstall);
    }
  }

  /** There is room for each VM the step turns on. */
  ghost predicate StartsFit(w: World, cfg: Config, step: Step) {
    !step.RefreshStep? ==> HasRoom(w, cfg, step)
  }

  /**
   When stops take effect and nobody pauses a VM, scans never cost a cap: over every such run
   the caps hold as long as there is room for what `vm.start` and the ends of installs turn on.
  */
  lemma {:induction false} CapsHoldWhenStopsTakeEffect(cfg: Config, steps: seq<Step>)
    requires Sensible(cfg) && OrderlyRun(steps) && forall i :: 0 <= i < |steps| ==> Obedient(steps[i])
    requires forall i :: 0 <= i < |steps| ==> StartsFit(Run(EMPTY, cfg, steps[..i]), cfg, steps[i])
    ensures Inv(Run(EMPTY, cfg, steps), cfg) && PositiveQueue(Run(EMPTY, cfg, steps)) && Tracks(Run(EMPTY, cfg, steps))
  {
    hide WithinCaps, NonNegative, Apply, Orderly, Tracks, RoomFor, FewEnoughOn;
    if steps == [] {
      EmptyIsWithinCaps(cfg);
      assert Tracks(EMPTY) by { EmptyTracks(); }
    } else {
      var before, last := steps[..|steps| - 1], steps[|steps| - 1];
      var w := Run(EMPTY, cfg, before);
      forall i | 0 <= i < |before| ensures StartsFit(Run(EMPTY, cfg, before[..i]), cfg, before[i]) {
        assert before[..i] == steps[..i];
      }
      CapsHoldWhenStopsTakeEffect(cfg, before);
      ScanFindsNothingNew(w, cfg);
      StepKeepsCapsIff(w, cfg, last);
      StepTracks(w, cfg, last);
    }
  }

  lemma EmptyTracks()
    ensures Tracks(EMPTY)
  {
  }
}
