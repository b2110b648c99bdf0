/** The scan, adopt and purge handlers, as they read libvirt and update the table of VMs. */
module Reconciler {
  import opened Common
  import opened DomainNames
  import opened ReconcileModel
  import opened ReconcileRepair

  class Registry {
    var rows: seq<Row>
    const domains: seq<Domain>

    constructor (rows: seq<Row>, domains: seq<Domain>)
      ensures this.rows == rows && this.domains == domains
    {
      this.rows, this.domains := rows, domains;
    }

    /** The names libvirt answers for, with their domains. */
    method ListDomains() returns (listed: seq<Domain>)
      ensures listed == Listed(domains)
    {
      listed := [];
      for i := 0 to |domains|
        invariant listed == Listed(domains[..i])
      {
        assert domains[..i + 1][..i] == domains[..i];
        if domains[i].readable {
          listed := listed + [domains[i]];
        }
      }
      assert domains[..|domains|] == domains;
    }

    method BuildReport() returns (report: Report)
      ensures report == ReportOf(rows, domains)
    {
      hide Parse, HasName, Defined, Listed;
      var listed := ListDomains();
      var orphans: seq<Orphan>, foreign: seq<Foreign> := [], [];
      for i := 0 to |listed|
        invariant orphans == OrphansOf(listed[..i], rows)
        invariant foreign == ForeignOf(listed[..i], rows)
      {
        assert listed[..i + 1][..i] == listed[..i];
        var d := listed[i];
        if HasName(rows, d.name) {
          continue;
        }
        var parsed := Parse(d.name);
        if parsed.Some? {
          orphans := orphans + [Orphan(d.name, parsed.value, d.diskGb, d.active)];
        } else {
          foreign := foreign + [Foreign(d.name, d.diskGb, d.active)];
        }
      }
      assert listed[..|listed|] == listed;
      var ghosts := ListGhosts(listed);
      report := Report(orphans, foreign, ghosts);
    }

    method ListGhosts(listed: seq<Domain>) returns (ghosts: seq<Ghost>)
      ensures ghosts == GhostsOf(rows, listed)
    {
      hide Defined;
      ghosts := [];
      for i := 0 to |rows|
        invariant ghosts == GhostsOf(rows[..i], listed)
      {
        assert rows[..i + 1][..i] == rows[..i];
        if !Defined(listed, rows[i].name) {
          ghosts := ghosts + [GhostOf(rows[i])];
        }
      }
      assert rows[..|rows|] == rows;
    }

    method Adopt(caller: Caller, name: string) returns (error: Option<Error>)
      modifies this`rows
      ensures (rows, error) == Adopted(old(rows), domains, caller, name)
      ensures old(Unique(rows)) ==> Unique(rows)
    {
      hide Parse, HasName, HasId, Unique;
      ghost var before := rows;
      var parsed := Parse(name);
      var d := DomainAt(domains, name);
      if parsed.None? {
        error := Some(Malformed);
      } else if d.None? || !d.value.readable {
        error := Some(NotFound);
      } else if HasId(rows, parsed.value.vm) {
        error := Some(AlreadyTracked);
      } else if HasName(rows, name) {
        error := Some(NameTaken);
      } else {
        rows := rows + [AdoptedRow(d.value, parsed.value, caller)];
        error := None;
      }
      if Unique(before) {
        AdoptKeepsUnique(before, domains, caller, name);
      }
    }

    method PurgeGhost(caller: Caller, vm: string) returns (error: Option<Error>)
      modifies this`rows
      ensures (rows, error) == Purged(old(rows), domains, caller, vm)
      ensures old(Unique(rows)) ==> Unique(rows)
    {
      hide Defined, Unique;
      ghost var before := rows;
      var found := RowAt(rows, vm);
      if found.None? {
        error := Some(NotFound);
      } else if !MayPurge(caller, found.value) {
        error := Some(NotOwner);
      } else if Defined(domains, found.value.name) {
        error := Some(StillExists);
      } else {
        DeleteRow(vm);
        error := None;
      }
      if Unique(before) {
        PurgeIsSafe(before, domains, caller, vm);
      }
    }

    method DeleteRow(vm: string)
      modifies this`rows
      ensures rows == WithoutRow(old(rows), vm)
    {
      var kept: seq<Row> := [];
      for i := 0 to |rows|
        invariant rows == old(rows)
        invariant kept == WithoutRow(rows[..i], vm)
      {
        assert rows[..i + 1][..i] == rows[..i];
        if rows[i].vm != vm {
          kept := kept + [rows[i]];
        }
      }
      assert rows[..|rows|] == rows;
      rows := kept;
    }
  }
}
