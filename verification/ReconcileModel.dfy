/**
 Reconciling libvirt with the database: the report, and the two repairs it suggests.  Which
 domains exist, which of them answer, and what their disks measure are inputs.
*/
module ReconcileModel {
  import opened Common
  import opened DomainNames

  /** A defined domain; one that is not `readable` exists, but asking for its XML fails. */
  datatype Domain = Domain(name: string, readable: bool, active: bool, diskGb: int)

  datatype Row = Row(vm: string, name: string, project: string, display: string, owner: string, diskGb: int,
                     origin: string)

  datatype Orphan = Orphan(name: string, parsed: Parsed, diskGb: int, active: bool)
  datatype Foreign = Foreign(name: string, diskGb: int, active: bool)
  datatype Ghost = Ghost(vm: string, name: string, project: string, display: string)
  datatype Report = Report(orphans: seq<Orphan>, foreign: seq<Foreign>, ghosts: seq<Ghost>)

  datatype Caller = Caller(project: string, user: string, isAdmin: bool)

  datatype Error = Malformed | NotFound | AlreadyTracked | NameTaken | NotOwner | StillExists

  predicate HasName(rows: seq<Row>, name: string) {
    exists r :: r in rows && r.name == name
  }

  predicate HasId(rows: seq<Row>, vm: string) {
    exists r :: r in rows && r.vm == vm
  }

  predicate Defined(domains: seq<Domain>, name: string) {
    exists d :: d in domains && d.name == name
  }

  /** The domains that made it into the listing. */
  function Listed(domains: seq<Domain>): seq<Domain> {
    if domains == [] then []
    else Listed(domains[..|domains| - 1]) + if domains[|domains| - 1].readable then [domains[|domains| - 1]] else []
  }

  function OrphansOf(listed: seq<Domain>, rows: seq<Row>): seq<Orphan> {
    if listed == [] then []
    else
      var d := listed[|listed| - 1];
      OrphansOf(listed[..|listed| - 1], rows)
      + if !HasName(rows, d.name) && Parse(d.name).Some? then [OrphanOf(d)] else []
  }

  function OrphanOf(d: Domain): Orphan
    requires Parse(d.name).Some?
  {
    Orphan(d.name, Parse(d.name).value, d.diskGb, d.active)
  }

  function ForeignOf(listed: seq<Domain>, rows: seq<Row>): seq<Foreign> {
    if listed == [] then []
    else
      var d := listed[|listed| - 1];
      ForeignOf(listed[..|listed| - 1], rows)
      + if !HasName(rows, d.name) && Parse(d.name).None? then [Foreign(d.name, d.diskGb, d.active)] else []
  }

  function GhostOf(r: Row): Ghost {
    Ghost(r.vm, r.name, r.project, r.display)
  }

  function GhostsOf(rows: seq<Row>, listed: seq<Domain>): seq<Ghost> {
    if rows == [] then []
    else
      var r := rows[|rows| - 1];
      GhostsOf(rows[..|rows| - 1], listed) + if !Defined(listed, r.name) then [GhostOf(r)] else []
  }

  function ReportOf(rows: seq<Row>, domains: seq<Domain>): Report {
    var listed := Listed(domains);
    Report(OrphansOf(listed, rows), ForeignOf(listed, rows), GhostsOf(rows, listed))
  }

  // ------------------------------------------------------------------ repairs

  function DomainAt(domains: seq<Domain>, name: string): Option<Domain> {
    if domains == [] then None
    else if domains[|domains| - 1].name == name then Some(domains[|domains| - 1])
    else DomainAt(domains[..|domains| - 1], name)
  }

  function AdoptedRow(d: Domain, parsed: Parsed, caller: Caller): Row {
    Row(parsed.vm, d.name, parsed.project, parsed.display, caller.user, d.diskGb, "adopted")
  }

  function Adopted(rows: seq<Row>, domains: seq<Domain>, caller: Caller, name: string): (seq<Row>, Option<Error>) {
    match Parse(name)
    case None => (rows, Some(Malformed))
    case Some(parsed) =>
      match DomainAt(domains, name)
      case None => (rows, Some(NotFound))
      case Some(d) =>
        if !d.readable then (rows, Some(NotFound))
        else if HasId(rows, parsed.vm) then (rows, Some(AlreadyTracked))
        else if HasName(rows, name) then (rows, Some(NameTaken))
        else (rows + [AdoptedRow(d, parsed, caller)], None)
  }

  function RowAt(rows: seq<Row>, vm: string): Option<Row> {
    if rows == [] then None
    else if rows[|rows| - 1].vm == vm then Some(rows[|rows| - 1])
    else RowAt(rows[..|rows| - 1], vm)
  }

  function WithoutRow(rows: seq<Row>, vm: string): seq<Row> {
    if rows == [] then []
    else WithoutRow(rows[..|rows| - 1], vm) + if rows[|rows| - 1].vm == vm then [] else [rows[|rows| - 1]]
  }

  predicate MayPurge(caller: Caller, r: Row) {
    caller.isAdmin || (r.project == caller.project && r.owner == caller.user)
  }

  function Purged(rows: seq<Row>, domains: seq<Domain>, caller: Caller, vm: string): (seq<Row>, Option<Error>) {
    match RowAt(rows, vm)
    case None => (rows, Some(NotFound))
    case Some(r) =>
      if !MayPurge(caller, r) then (rows, Some(NotOwner))
      else if Defined(domains, r.name) then (rows, Some(StillExists))
      else (WithoutRow(rows, vm), None)
  }

  function AdoptEach(rows: seq<Row>, domains: seq<Domain>, caller: Caller, orphans: seq<Orphan>): seq<Row>
    decreases |orphans|
  {
    if orphans == [] then rows
    else
      AdoptEach(Adopted(rows, domains, caller, orphans[0].name).0, domains, caller, orphans[1..])
  }

  function PurgeEach(rows: seq<Row>, domains: seq<Domain>, caller: Caller, ghosts: seq<Ghost>): seq<Row>
    decreases |ghosts|
  {
    if ghosts == [] then rows
    else PurgeEach(Purged(rows, domains, caller, ghosts[0].vm).0, domains, caller, ghosts[1..])
  }

  /** Follow every suggestion of one report. */
  function Repaired(rows: seq<Row>, domains: seq<Domain>, caller: Caller): seq<Row> {
    var report := ReportOf(rows, domains);
    PurgeEach(AdoptEach(rows, domains, caller, report.orphans), domains, caller, report.ghosts)
  }

  // ------------------------------------------------------------------ invariants

  ghost predicate Unique(rows: seq<Row>) {
    && (forall i, j :: 0 <= i < j < |rows| ==> rows[i].vm != rows[j].vm)
    && (forall i, j :: 0 <= i < j < |rows| ==> rows[i].name != rows[j].name)
  }

  ghost predicate UniqueNames(domains: seq<Domain>) {
    forall i, j :: 0 <= i < j < |domains| ==> domains[i].name != domains[j].name
  }
}
