/**
 Admission control and the request queue: the capacity arithmetic, what a request does when it
 is admitted or has to wait, what one pass of the queue runner does, and what turns VMs on and
 off besides.  Creating a VM, asking libvirt for its domains and the guests themselves are
 inputs of the steps.
*/
module AdmissionModel {
  import opened Common

  type ProjectId(==, !new)
  type VmId = nat
  type EntryId = nat
  type Time = int

  // ------------------------------------------------------------------ weighing lists

  function Weigh<T>(s: seq<T>, weight: T -> int): int {
    if s == [] then 0 else Weigh(s[..|s| - 1], weight) + weight(s[|s| - 1])
  }

  // ------------------------------------------------------------------ data

  datatype Sizes = Sizes(cpu: int, ramMb: int, diskGb: int)

  /** What `or` and `int` make of a value that is no number: nothing, a number, or an error. */
  datatype Reading = Blank | Numeral(n: int) | Unreadable

  /**
   A size in the request's JSON: left out, an explicit null, a whole number (true and false are
   1 and 0), a finite number with a fraction, or text; lists and objects are read like text.
   Infinities and what is no number at all make `int` fail, so no such size gets past a handler.
  */
  datatype Field = Absent | Null | Given(n: int) | Fraction(x: real) | Text(reading: Reading)

  datatype Job = CloudImage | Installer(testBoot: bool)

  /** `defaults` are the sizes of the template the request names. */
  datatype Request = Request(project: ProjectId, job: Job, cpu: Field, ramMb: Field, diskGb: Field, defaults: Sizes)

  datatype Row = Row(vm: VmId, project: ProjectId, running: bool, diskGb: int, installing: bool)

  /** A domain as the hypervisor lists it. */
  datatype Domain = Domain(vm: VmId, memKib: int, vcpus: int, active: bool)

  datatype Status = Waiting | Processing | Done | Expired

  datatype Entry = Entry(id: EntryId, request: Request, status: Status, createdAt: Time)

  datatype Config = Config(usableRam: real, maxVcpus: int, maxRunning: int, maxDisk: int, maxInstalls: int)

  /**
   `watched` are the VMs whose install a watcher waits for.  Ids are drawn from counters in place
   of random ones.  `accepted`, `created` and `promoted` count what happened: requests answered
   with a VM or a queue entry, VMs created, and entries the runner took up.
  */
  datatype World = World(rows: seq<Row>, domains: seq<Domain>, queue: seq<Entry>, watched: set<VmId>,
                         nextVm: VmId, nextEntry: EntryId,
                         accepted: nat, created: nat, promoted: seq<EntryId>)

  // ------------------------------------------------------------------ capacity

  function ActiveVcpus(): Domain -> int { (d: Domain) => if d.active then d.vcpus else 0 }

  function ActiveKib(): Domain -> int { (d: Domain) => if d.active then d.memKib else 0 }

  function DiskOf(p: ProjectId): Row -> int { (r: Row) => if r.project == p then r.diskGb else 0 }

  function RunningOf(p: ProjectId): Row -> int { (r: Row) => if r.project == p && r.running then 1 else 0 }

  function InstallingOf(): Row -> int { (r: Row) => if r.installing then 1 else 0 }

  /** Two decimals, ties to the even hundredth. */
  function Round2(x: real): real {
    var y := x * 100.0;
    var low := y.Floor;
    var rest := y - low as real;
    var n := if rest < 0.5 || (rest == 0.5 && low % 2 == 0) then low else low + 1;
    n as real / 100.0
  }

  function MaxReal(a: real, b: real): real {
    if a >= b then a else b
  }

  function KibToGib(kib: int): real {
    kib as real / 1048576.0
  }

  /** How libvirt answers when asked for the active domains: with all of them, or it fails after some. */
  datatype Listing = Listed | CutAfter(k: nat)

  /** Memory and vCPUs are asked for separately. */
  datatype Answers = Answers(ram: Listing, vcpus: Listing)

  const ALL_LISTED: Answers := Answers(Listed, Listed)

  /** The domains counted before the listing fails, if it does. */
  function Seen(domains: seq<Domain>, listing: Listing): seq<Domain> {
    if listing.Listed? || listing.k >= |domains| then domains else domains[..listing.k]
  }

  function UsedGib(w: World, listing: Listing): real {
    KibToGib(Weigh(Seen(w.domains, listing), ActiveKib()))
  }

  function UsedVcpus(w: World, listing: Listing): int {
    Weigh(Seen(w.domains, listing), ActiveVcpus())
  }

  function FreeGib(w: World, cfg: Config, listing: Listing): real {
    Round2(MaxReal(0.0, cfg.usableRam - UsedGib(w, listing)))
  }

  function FreeVcpus(w: World, cfg: Config, listing: Listing): int {
    var free := cfg.maxVcpus - UsedVcpus(w, listing);
    if free >= 0 then free else 0
  }

  datatype Reason = NoRam | NoVcpus | TooManyRunning | NoDisk | TooManyInstalls

  /** A size as admission gets it: no number, a whole number, or a float. */
  datatype Size = NoNumber | Whole(n: int) | Float(x: real)

  function Amount(s: Size): real
    requires !s.NoNumber?
  {
    if s.Whole? then s.n as real else s.x
  }

  /**
   1024 * (2^1024 - 2^970), written as (2^54 - 1) * (2^196)^5: from here on a whole number divided
   by 1024 does not round to a float, and the division raises.
  */
  const FLOAT_LIMIT: int :=
    0x3F_FFFF_FFFF_FFFF
    * 0x1_0000_0000_0000_0000_0000_0000_0000_0000_0000_0000_0000_0000_0
    * 0x1_0000_0000_0000_0000_0000_0000_0000_0000_0000_0000_0000_0000_0
    * 0x1_0000_0000_0000_0000_0000_0000_0000_0000_0000_0000_0000_0000_0
    * 0x1_0000_0000_0000_0000_0000_0000_0000_0000_0000_0000_0000_0000_0
    * 0x1_0000_0000_0000_0000_0000_0000_0000_0000_0000_0000_0000_0000_0

  predicate Overflows(s: Size) {
    s.Whole? && (s.n >= FLOAT_LIMIT || s.n <= -FLOAT_LIMIT)
  }

  /**
   A size that is no number makes the comparison that first needs it raise, and a memory beyond
   float range its division.
  */
  datatype Verdict = Admitted | Denied(reason: Reason) | Raises

  function CheckAdmission(w: World, cfg: Config, answers: Answers, project: ProjectId,
                          cpu: Size, ramMb: Size, diskGb: Size): Verdict
  {
    if ramMb.NoNumber? || Overflows(ramMb) then Raises
    else if Amount(ramMb) / 1024.0 > FreeGib(w, cfg, answers.ram) then Denied(NoRam)
    else if cpu.NoNumber? then Raises
    else if Amount(cpu) > FreeVcpus(w, cfg, answers.vcpus) as real then Denied(NoVcpus)
    else if Weigh(w.rows, RunningOf(project)) >= cfg.maxRunning then Denied(TooManyRunning)
    else if diskGb.NoNumber? then Raises
    else if Weigh(w.rows, DiskOf(project)) as real + Amount(diskGb) > cfg.maxDisk as real then Denied(NoDisk)
    else Admitted
  }

  // ------------------------------------------------------------------ handling a request

  /** Towards zero, as `int` does. */
  function Truncated(x: real): int {
    if x >= 0.0 then x.Floor else -(-x).Floor
  }

  /** Zero, null, blank and absent all fall back to the template's size; None is the error of `int`. */
  function OrDefault(f: Field, default: int): Option<int> {
    match f
    case Absent => Some(default)
    case Null => Some(default)
    case Given(n) => Some(if n == 0 then default else n)
    case Fraction(x) => Some(if x == 0.0 then default else Truncated(x))
    case Text(Blank) => Some(default)
    case Text(Numeral(n)) => Some(n)
    case Text(Unreadable) => None
  }

  function HandlerSizes(r: Request): Option<Sizes> {
    var cpu, ramMb, diskGb :=
      OrDefault(r.cpu, r.defaults.cpu), OrDefault(r.ramMb, r.defaults.ramMb), OrDefault(r.diskGb, r.defaults.diskGb);
    if cpu.Some? && ramMb.Some? && diskGb.Some? then Some(Sizes(cpu.value, ramMb.value, diskGb.value)) else None
  }

  /** The runner has its own defaults, and passes on whatever else it finds. */
  function RunnerSize(f: Field, default: int): Size {
    match f
    case Absent => Whole(default)
    case Null => NoNumber
    case Given(n) => Whole(n)
    case Fraction(x) => Float(x)
    case Text(_) => NoNumber
  }

  /** How provisioning goes: the request is invalid, creation breaks halfway, or it works. */
  datatype Provisioning = Invalid | Breaks | Works

  datatype Luck = Luck(runnerAnswers: Answers, handlerAnswers: Answers, provisioning: Provisioning)

  datatype Outcome = CreatedVm(vm: VmId) | Queued(entry: EntryId) | Failed

  function Admission(w: World, cfg: Config, answers: Answers, r: Request, sizes: Sizes): Verdict {
    if r.job.Installer? && Weigh(w.rows, InstallingOf()) >= cfg.maxInstalls then Denied(TooManyInstalls)
    else CheckAdmission(w, cfg, answers, r.project, Whole(sizes.cpu), Whole(sizes.ramMb), Whole(sizes.diskGb))
  }

  function Enqueued(w: World, r: Request, now: Time): World {
    w.(queue := w.queue + [Entry(w.nextEntry, r, Waiting, now)], nextEntry := w.nextEntry + 1)
  }

  predicate Installs(r: Request) {
    r.job.Installer? && !r.job.testBoot
  }

  /** The VM is created and runs; an install gets its watcher. */
  function WithVm(w: World, r: Request, sizes: Sizes): World {
    w.(rows := w.rows + [Row(w.nextVm, r.project, true, sizes.diskGb, Installs(r))],
       domains := w.domains + [Domain(w.nextVm, sizes.ramMb * 1024, sizes.cpu, true)],
       watched := if Installs(r) then w.watched + {w.nextVm} else w.watched,
       nextVm := w.nextVm + 1, created := w.created + 1)
  }

  /** `vm.request` and `vm.request_installer`. */
  function Handle(w: World, cfg: Config, r: Request, luck: Luck, now: Time): (World, Outcome) {
    var sizes := HandlerSizes(r);
    if luck.provisioning.Invalid? || sizes.None? then (w, Failed)
    else
      match Admission(w, cfg, luck.handlerAnswers, r, sizes.value)
      case Denied(_) => (Enqueued(w, r, now), Queued(w.nextEntry))
      case Raises => (w, Failed)
      case Admitted =>
        if luck.provisioning.Breaks? then (w, Failed) else (WithVm(w, r, sizes.value), CreatedVm(w.nextVm))
  }

  function SubmitRequest(w: World, cfg: Config, r: Request, luck: Luck, now: Time): World {
    var (w', outcome) := Handle(w, cfg, r, luck, now);
    if outcome.Failed? then w' else w'.(accepted := w'.accepted + 1)
  }

  // ------------------------------------------------------------------ the queue runner

  function Pending(queue: seq<Entry>): seq<Entry> {
    if queue == [] then []
    else
      var last := queue[|queue| - 1];
      Pending(queue[..|queue| - 1]) + if last.status.Waiting? then [last] else []
  }

  function SetStatus(queue: seq<Entry>, id: EntryId, status: Status): seq<Entry> {
    if queue == [] then []
    else
      var last := queue[|queue| - 1];
      SetStatus(queue[..|queue| - 1], id, status) + [if last.id == id then last.(status := status) else last]
  }

  function RunnerVerdict(w: World, cfg: Config, answers: Answers, r: Request): Verdict {
    CheckAdmission(w, cfg, answers, r.project,
                   RunnerSize(r.cpu, 2), RunnerSize(r.ramMb, 2048), RunnerSize(r.diskGb, 20))
  }

  function WithStatus(w: World, id: EntryId, status: Status): World {
    w.(queue := SetStatus(w.queue, id, status))
  }

  function Taken(w: World, id: EntryId): World {
    WithStatus(w, id, Processing).(promoted := w.promoted + [id])
  }

  /** Taking up one entry: its handler may create the VM, queue the request afresh, or fail. */
  function Promote(w: World, cfg: Config, e: Entry, luck: Luck, now: Time): World {
    var (after, outcome) := Handle(Taken(w, e.id), cfg, e.request, luck, now);
    WithStatus(after, e.id, if outcome.Failed? then Expired else Done)
  }

  datatype PassState = PassState(w: World, aborted: bool)

  function Consider(w: World, cfg: Config, e: Entry, luck: Luck, now: Time): PassState {
    match RunnerVerdict(w, cfg, luck.runnerAnswers, e.request)
    case Raises => PassState(w, true)
    case Denied(_) => PassState(w, false)
    case Admitted => PassState(Promote(w, cfg, e, luck, now), false)
  }

  type Lucks = EntryId -> Luck

  /** The runner goes through the entries that were pending when the pass began. */
  function PassOver(w: World, cfg: Config, entries: seq<Entry>, lucks: Lucks, now: Time): PassState {
    if entries == [] then PassState(w, false)
    else
      var p := PassOver(w, cfg, entries[..|entries| - 1], lucks, now);
      var e := entries[|entries| - 1];
      if p.aborted then p else Consider(p.w, cfg, e, lucks(e.id), now)
  }

  function QueuePass(w: World, cfg: Config, lucks: Lucks, now: Time): World {
    PassOver(w, cfg, Pending(w.queue), lucks, now).w
  }

  // ------------------------------------------------------------------ other steps

  /** The domain of `vm` goes on or off. */
  function MapDomains(domains: seq<Domain>, vm: VmId, active: bool): seq<Domain> {
    if domains == [] then []
    else
      var last := domains[|domains| - 1];
      MapDomains(domains[..|domains| - 1], vm, active) + [if last.vm == vm then last.(active := active) else last]
  }

  function DropDomains(domains: seq<Domain>, vm: VmId): seq<Domain> {
    if domains == [] then []
    else
      var last := domains[|domains| - 1];
      DropDomains(domains[..|domains| - 1], vm) + if last.vm == vm then [] else [last]
  }

  /** What a call leaves of a domain. */
  datatype Fate = Stays | Off | Gone

  function AfterFate(domains: seq<Domain>, vm: VmId, fate: Fate): seq<Domain> {
    match fate
    case Stays => domains
    case Off => MapDomains(domains, vm, false)
    case Gone => DropDomains(domains, vm)
  }

  predicate IsDefined(domains: seq<Domain>, vm: VmId) {
    exists d :: d in domains && d.vm == vm
  }

  predicate IsOn(domains: seq<Domain>, vm: VmId) {
    exists d :: d in domains && d.vm == vm && d.active
  }

  /** What can happen to the row of a VM. */
  datatype Change = Halt | Resume | EndInstall | BootInstalled

  function Changed(r: Row, change: Change): Row {
    match change
    case Halt => r.(running := false)
    case Resume => r.(running := true)
    case EndInstall => r.(installing := false)
    case BootInstalled => r.(installing := false, running := true)
  }

  function MapRows(rows: seq<Row>, vm: VmId, change: Change): seq<Row> {
    if rows == [] then []
    else
      var last := rows[|rows| - 1];
      MapRows(rows[..|rows| - 1], vm, change) + [if last.vm == vm then Changed(last, change) else last]
  }

  function DropRows(rows: seq<Row>, vm: VmId): seq<Row> {
    if rows == [] then []
    else
      var last := rows[|rows| - 1];
      DropRows(rows[..|rows| - 1], vm) + if last.vm == vm then [] else [last]
  }

  /** `vm.start`, which checks no capacity; a domain that is not defined cannot start. */
  function Started(w: World, vm: VmId): World {
    if !IsDefined(w.domains, vm) || !exists r :: r in w.rows && r.vm == vm then w
    else w.(rows := MapRows(w.rows, vm, Resume), domains := MapDomains(w.domains, vm, true))
  }

  /** How watching an install ends: out of time or patience, or by booting the installed disk. */
  datatype InstallEnd = GaveUp | BootedFromDisk

  predicate CanBoot(w: World, vm: VmId) {
    vm in w.watched && IsDefined(w.domains, vm) && !IsOn(w.domains, vm)
  }

  /** The watcher boots a domain it saw powered off, again without asking for admission. */
  function InstallEnded(w: World, vm: VmId, end: InstallEnd): World {
    if end.GaveUp? && vm in w.watched then
      w.(rows := MapRows(w.rows, vm, EndInstall), watched := w.watched - {vm})
    else if end.BootedFromDisk? && CanBoot(w, vm) then
      w.(rows := MapRows(w.rows, vm, BootInstalled), domains := MapDomains(w.domains, vm, true),
         watched := w.watched - {vm})
    else w
  }

  /** Whether a scan finds the VM of a row running; it keeps to the row if libvirt has no such domain. */
  predicate FoundRunning(r: Row, domains: seq<Domain>, otherwise: set<VmId>) {
    if IsDefined(domains, r.vm) then IsOn(domains, r.vm) && r.vm !in otherwise else r.running
  }

  /** A scan writes live states back; those in `otherwise` are on, but paused or shutting down. */
  function Refreshed(rows: seq<Row>, domains: seq<Domain>, otherwise: set<VmId>): seq<Row> {
    if rows == [] then []
    else
      var last := rows[|rows| - 1];
      Refreshed(rows[..|rows| - 1], domains, otherwise)
      + [last.(running := FoundRunning(last, domains, otherwise))]
  }

  function ExpireOlder(queue: seq<Entry>, cutoff: Time): seq<Entry> {
    if queue == [] then []
    else
      var last := queue[|queue| - 1];
      ExpireOlder(queue[..|queue| - 1], cutoff)
      + [if last.status.Waiting? && last.createdAt < cutoff then last.(status := Expired) else last]
  }

  datatype Step =
    | RequestStep(request: Request, luck: Luck, now: Time)
    | PassStep(lucks: Lucks, now: Time)
    | StopStep(vm: VmId, off: bool)
    | DeleteStep(vm: VmId, fate: Fate)
    | GuestHaltsStep(vm: VmId)
    | StartStep(vm: VmId)
    | InstallEndsStep(vm: VmId, end: InstallEnd)
    | RefreshStep(otherwise: set<VmId>)
    | ExpireStep(cutoff: Time)

  function Apply(w: World, cfg: Config, step: Step): World {
    match step
    case RequestStep(r, luck, now) => SubmitRequest(w, cfg, r, luck, now)
    case PassStep(lucks, now) => QueuePass(w, cfg, lucks, now)
    case StopStep(vm, off) =>
      w.(rows := MapRows(w.rows, vm, Halt), domains := AfterFate(w.domains, vm, if off then Off else Stays))
    case DeleteStep(vm, fate) => w.(rows := DropRows(w.rows, vm), domains := AfterFate(w.domains, vm, fate))
    case GuestHaltsStep(vm) => w.(domains := AfterFate(w.domains, vm, Off))
    case StartStep(vm) => Started(w, vm)
    case InstallEndsStep(vm, end) => InstallEnded(w, vm, end)
    case RefreshStep(otherwise) => w.(rows := Refreshed(w.rows, w.domains, otherwise))
    case ExpireStep(cutoff) => w.(queue := ExpireOlder(w.queue, cutoff))
  }

  function Run(w: World, cfg: Config, steps: seq<Step>): World {
    if steps == [] then w
    else Apply(Run(w, cfg, steps[..|steps| - 1]), cfg, steps[|steps| - 1])
  }

  const EMPTY: World := World([], [], [], {}, 0, 0, 0, 0, [])
}
