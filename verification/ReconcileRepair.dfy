/** What the reconcile report says of every domain and row, and what following it achieves. */
module ReconcileRepair {
  import opened Common
  import opened DomainNames
  import opened ReconcileModel

  // ------------------------------------------------------------------ the report

  lemma {:induction false} ListedAre(domains: seq<Domain>)
    ensures forall d :: d in Listed(domains) <==> d in domains && d.readable
  {
    if domains == [] {
    } else {
      SplitLast(domains);
      ListedAre(domains[..|domains| - 1]);
    }
  }

  lemma {:induction false} ListedUnique(domains: seq<Domain>)
    requires UniqueNames(domains)
    ensures UniqueNames(Listed(domains))
  {
    if domains == [] {
    } else {
      var before, last := domains[..|domains| - 1], domains[|domains| - 1];
      ListedUnique(before);
      ListedAre(before);
      forall d | d in Listed(before) ensures d.name != last.name {
        assert d in before;
      }
    }
  }

  lemma {:induction false} OrphansAre(listed: seq<Domain>, rows: seq<Row>)
    ensures forall o :: o in OrphansOf(listed, rows)
                        <==> exists d :: d in listed && !HasName(rows, d.name) && Parse(d.name).Some?
                                         && o == OrphanOf(d)
  {
    hide Parse, HasName;
    if listed == [] {
    } else {
      SplitLast(listed);
      OrphansAre(listed[..|listed| - 1], rows);
    }
  }

  lemma {:induction false} ForeignAre(listed: seq<Domain>, rows: seq<Row>)
    ensures forall f :: f in ForeignOf(listed, rows)
                        <==> exists d :: d in listed && !HasName(rows, d.name) && Parse(d.name).None?
                                         && f == Foreign(d.name, d.diskGb, d.active)
  {
    hide Parse, HasName;
    if listed == [] {
    } else {
      SplitLast(listed);
      ForeignAre(listed[..|listed| - 1], rows);
    }
  }

  lemma {:induction false} GhostsAre(rows: seq<Row>, listed: seq<Domain>)
    ensures forall g :: g in GhostsOf(rows, listed)
                        <==> exists r :: r in rows && !Defined(listed, r.name) && g == GhostOf(r)
  {
    hide Defined;
    if rows == [] {
    } else {
      SplitLast(rows);
      GhostsAre(rows[..|rows| - 1], listed);
    }
  }

  ghost predicate UniqueOrphans(orphans: seq<Orphan>) {
    forall i, j :: 0 <= i < j < |orphans| ==> orphans[i].name != orphans[j].name
  }

  ghost predicate UniqueForeign(foreign: seq<Foreign>) {
    forall i, j :: 0 <= i < j < |foreign| ==> foreign[i].name != foreign[j].name
  }

  lemma {:induction false} OrphansUnique(listed: seq<Domain>, rows: seq<Row>)
    requires UniqueNames(listed)
    ensures UniqueOrphans(OrphansOf(listed, rows))
  {
    hide Parse, HasName;
    if listed == [] {
    } else {
      var before, last := listed[..|listed| - 1], listed[|listed| - 1];
      OrphansUnique(before, rows);
      OrphansAre(before, rows);
      forall o | o in OrphansOf(before, rows) ensures o.name != last.name {
        var d :| d in before && !HasName(rows, d.name) && Parse(d.name).Some? && o == OrphanOf(d);
      }
    }
  }

  lemma {:induction false} ForeignUnique(listed: seq<Domain>, rows: seq<Row>)
    requires UniqueNames(listed)
    ensures UniqueForeign(ForeignOf(listed, rows))
  {
    hide Parse, HasName;
    if listed == [] {
    } else {
      var before, last := listed[..|listed| - 1], listed[|listed| - 1];
      ForeignUnique(before, rows);
      ForeignAre(before, rows);
      forall f | f in ForeignOf(before, rows) ensures f.name != last.name {
        var d :| d in before && !HasName(rows, d.name) && Parse(d.name).None?
                 && f == Foreign(d.name, d.diskGb, d.active);
      }
    }
  }

  ghost predicate OrphanNamed(report: Report, name: string) {
    exists o :: o in report.orphans && o.name == name
  }

  ghost predicate ForeignNamed(report: Report, name: string) {
    exists f :: f in report.foreign && f.name == name
  }

  ghost predicate UniqueGhosts(ghosts: seq<Ghost>) {
    forall i, j :: 0 <= i < j < |ghosts| ==> ghosts[i].vm != ghosts[j].vm
  }

  lemma {:induction false} GhostsUnique(rows: seq<Row>, listed: seq<Domain>)
    requires Unique(rows)
    ensures UniqueGhosts(GhostsOf(rows, listed))
  {
    hide Defined;
    if rows == [] {
    } else {
      var before, last := rows[..|rows| - 1], rows[|rows| - 1];
      GhostsUnique(before, listed);
      GhostsAre(before, listed);
      forall g | g in GhostsOf(before, listed) ensures g.vm != last.vm {
        var r :| r in before && !Defined(listed, r.name) && g == GhostOf(r);
      }
    }
  }

  /** A ghost in the report is what it says of a row without a domain. */
  ghost predicate GhostsComeFrom(rows: seq<Row>, listed: seq<Domain>, ghosts: seq<Ghost>) {
    forall g :: g in ghosts <==> exists r :: r in rows && !Defined(listed, r.name) && g == GhostOf(r)
  }

  /**
   Every domain that answers is tracked, an orphan or foreign, and only one of these; every row
   is tracked or a ghost; and the report names nothing else and nothing twice.
  */
  lemma {:induction false} ReportPartitions(rows: seq<Row>, domains: seq<Domain>, d: Domain, r: Row)
    requires UniqueNames(domains)
    ensures var report := ReportOf(rows, domains);
            && (d in domains && d.readable ==>
                  && (OrphanNamed(report, d.name) <==> !HasName(rows, d.name) && Parse(d.name).Some?)
                  && (ForeignNamed(report, d.name) <==> !HasName(rows, d.name) && Parse(d.name).None?))
            && (r in rows ==> (GhostOf(r) in report.ghosts <==> !Defined(Listed(domains), r.name)))
            && (OrphanNamed(report, d.name) || ForeignNamed(report, d.name) ==> Defined(Listed(domains), d.name))
            && UniqueOrphans(report.orphans) && UniqueForeign(report.foreign)
            && GhostsComeFrom(rows, Listed(domains), report.ghosts)
            && (Unique(rows) ==> UniqueGhosts(report.ghosts))
  {
    hide Parse, HasName, Listed;
    var listed := Listed(domains);
    ListedAre(domains);
    ListedUnique(domains);
    OrphansAre(listed, rows);
    ForeignAre(listed, rows);
    OrphansUnique(listed, rows);
    ForeignUnique(listed, rows);
    if d in listed && !HasName(rows, d.name) {
      assert Parse(d.name).Some? ==> OrphanOf(d) in OrphansOf(listed, rows);
      assert Parse(d.name).None? ==> Foreign(d.name, d.diskGb, d.active) in ForeignOf(listed, rows);
    }
    GhostsAre(rows, listed);
    if r in rows {
      GhostOfRow(rows, listed, r);
    }
    if Unique(rows) {
      GhostsUnique(rows, listed);
    }
  }

  lemma GhostOfRow(rows: seq<Row>, listed: seq<Domain>, r: Row)
    requires r in rows
    ensures GhostOf(r) in GhostsOf(rows, listed) <==> !Defined(listed, r.name)
  {
    hide Defined;
    GhostsAre(rows, listed);
  }

  // ------------------------------------------------------------------ adopting

  lemma {:induction false} DomainAtIs(domains: seq<Domain>, d: Domain)
    requires UniqueNames(domains) && d in domains
    ensures DomainAt(domains, d.name) == Some(d)
  {
    SplitLast(domains);
    if domains[|domains| - 1] != d {
      DomainAtIs(domains[..|domains| - 1], d);
    }
  }

  /** An orphan is what the report says of one domain that answers. */
  ghost predicate From(domains: seq<Domain>, o: Orphan) {
    exists d :: d in domains && d.readable && Parse(d.name).Some? && o == OrphanOf(d)
  }

  ghost predicate FromEach(domains: seq<Domain>, orphans: seq<Orphan>) {
    forall k :: 0 <= k < |orphans| ==> From(domains, orphans[k])
  }

  ghost predicate NamesUntracked(rows: seq<Row>, orphans: seq<Orphan>) {
    forall k :: 0 <= k < |orphans| ==> !HasName(rows, orphans[k].name)
  }

  /** The parsed ids are distinct and none is tracked. */
  ghost predicate IdsFit(rows: seq<Row>, orphans: seq<Orphan>) {
    && (forall k :: 0 <= k < |orphans| ==> !HasId(rows, orphans[k].parsed.vm))
    && (forall i, j :: 0 <= i < j < |orphans| ==> orphans[i].parsed.vm != orphans[j].parsed.vm)
  }

  lemma UniqueAppend(rows: seq<Row>, r: Row)
    requires Unique(rows) && !HasId(rows, r.vm) && !HasName(rows, r.name)
    ensures Unique(rows + [r])
  {
  }

  /** Whoever adopts what, ids and names stay unique, and a refused adoption changes nothing. */
  lemma AdoptKeepsUnique(rows: seq<Row>, domains: seq<Domain>, caller: Caller, name: string)
    requires Unique(rows)
    ensures var (after, error) := Adopted(rows, domains, caller, name);
            Unique(after) && (error.Some? ==> after == rows)
  {
    hide Parse;
    var (after, error) := Adopted(rows, domains, caller, name);
    if error.None? {
      DomainAtName(domains, name);
      UniqueAppend(rows, after[|rows|]);
    }
  }

  lemma {:induction false} DomainAtName(domains: seq<Domain>, name: string)
    ensures DomainAt(domains, name).Some? ==>
              DomainAt(domains, name).value.name == name && DomainAt(domains, name).value in domains
  {
    if domains == [] {
    } else {
      DomainAtName(domains[..|domains| - 1], name);
    }
  }

  /** An orphan is adopted exactly when its parsed id is not tracked. */
  lemma AdoptOrphan(rows: seq<Row>, domains: seq<Domain>, caller: Caller, o: Orphan)
    requires UniqueNames(domains) && From(domains, o) && !HasName(rows, o.name)
    ensures var (after, error) := Adopted(rows, domains, caller, o.name);
            if HasId(rows, o.parsed.vm) then error == Some(AlreadyTracked) && after == rows
            else
              && error == None
              && after == rows + [Row(o.parsed.vm, o.name, o.parsed.project, o.parsed.display, caller.user, o.diskGb,
                                      "adopted")]
  {
    hide Parse, HasId, HasName;
    var d :| d in domains && d.readable && Parse(d.name).Some? && o == OrphanOf(d);
    DomainAtIs(domains, d);
  }

  ghost predicate AllTracked(rows: seq<Row>, orphans: seq<Orphan>) {
    forall k :: 0 <= k < |orphans| ==> HasName(rows, orphans[k].name)
  }

  /** The rows grew, by rows under the names of these orphans. */
  ghost predicate Grown(rows: seq<Row>, after: seq<Row>, orphans: seq<Orphan>) {
    && |rows| <= |after| && after[..|rows|] == rows
    && (forall k :: |rows| <= k < |after| ==> exists i :: 0 <= i < |orphans| && orphans[i].name == after[k].name)
  }

  lemma GrownMembers(rows: seq<Row>, after: seq<Row>, orphans: seq<Orphan>)
    requires Grown(rows, after, orphans)
    ensures forall r :: r in rows ==> r in after
    ensures forall r :: r in after ==> r in rows || exists i :: 0 <= i < |orphans| && orphans[i].name == r.name
  {
    assert after == after[..|rows|] + after[|rows|..];
  }

  lemma {:induction false} AdoptEachGrows(rows: seq<Row>, domains: seq<Domain>, caller: Caller, orphans: seq<Orphan>)
    requires Unique(rows) && UniqueNames(domains)
    requires UniqueOrphans(orphans) && FromEach(domains, orphans) && NamesUntracked(rows, orphans)
    ensures var after := AdoptEach(rows, domains, caller, orphans);
            && Unique(after) && Grown(rows, after, orphans)
            && (AllTracked(after, orphans) <==> IdsFit(rows, orphans))
    decreases |orphans|
  {
    if orphans != [] {
      hide Adopted, From, HasName, HasId, Unique, UniqueNames, Grown, AllTracked, IdsFit;
      var o, rest := orphans[0], orphans[1..];
      var next := Adopted(rows, domains, caller, o.name).0;
      var after := AdoptEach(next, domains, caller, rest);
      AdoptKeepsUnique(rows, domains, caller, o.name);
      AdoptOrphan(rows, domains, caller, o);
      StillUntracked(rows, next, orphans);
      AdoptEachGrows(next, domains, caller, rest);
      GrownStep(rows, next, after, orphans);
      FitStep(rows, next, after, orphans);
    } else {
      assert AdoptEach(rows, domains, caller, orphans) == rows;
    }
  }

  /** One orphan was tried: it is now tracked, unless its id already was. */
  ghost predicate Tried(rows: seq<Row>, next: seq<Row>, o: Orphan) {
    if HasId(rows, o.parsed.vm) then next == rows
    else |next| == |rows| + 1 && next[..|rows|] == rows && next[|rows|].name == o.name && next[|rows|].vm == o.parsed.vm
  }

  lemma StillUntracked(rows: seq<Row>, next: seq<Row>, orphans: seq<Orphan>)
    requires orphans != [] && Tried(rows, next, orphans[0])
    requires UniqueOrphans(orphans) && NamesUntracked(rows, orphans)
    ensures UniqueOrphans(orphans[1..]) && NamesUntracked(next, orphans[1..])
  {
    hide HasId;
    forall k | 0 <= k < |orphans[1..]| ensures !HasName(next, orphans[1..][k].name) {
      assert !HasName(rows, orphans[k + 1].name);
      assert orphans[0].name != orphans[k + 1].name;
      if HasId(rows, orphans[0].parsed.vm) {
      } else {
        assert next == rows + [next[|rows|]];
      }
    }
  }

  lemma GrownStep(rows: seq<Row>, next: seq<Row>, after: seq<Row>, orphans: seq<Orphan>)
    requires orphans != [] && Tried(rows, next, orphans[0]) && Grown(next, after, orphans[1..])
    ensures Grown(rows, after, orphans)
  {
    hide HasId;
    assert after[..|rows|] == after[..|next|][..|rows|];
    forall k | |rows| <= k < |after| ensures exists i :: 0 <= i < |orphans| && orphans[i].name == after[k].name {
      if k < |next| {
        assert after[k] == after[..|next|][k];
        assert orphans[0].name == after[k].name;
      } else {
        var i :| 0 <= i < |orphans[1..]| && orphans[1..][i].name == after[k].name;
        assert orphans[i + 1].name == after[k].name;
      }
    }
  }

  lemma FitStep(rows: seq<Row>, next: seq<Row>, after: seq<Row>, orphans: seq<Orphan>)
    requires orphans != [] && Tried(rows, next, orphans[0]) && Grown(next, after, orphans[1..])
    requires UniqueOrphans(orphans) && NamesUntracked(rows, orphans)
    requires AllTracked(after, orphans[1..]) <==> IdsFit(next, orphans[1..])
    ensures AllTracked(after, orphans) <==> IdsFit(rows, orphans)
  {
    if HasId(rows, orphans[0].parsed.vm) {
      NeverTracked(rows, after, orphans);
    } else {
      IdsFitStep(rows, next, orphans);
      FirstTracked(rows, next, after, orphans);
    }
  }

  lemma NeverTracked(rows: seq<Row>, after: seq<Row>, orphans: seq<Orphan>)
    requires orphans != [] && Grown(rows, after, orphans[1..])
    requires UniqueOrphans(orphans) && NamesUntracked(rows, orphans)
    ensures !AllTracked(after, orphans)
  {
    GrownMembers(rows, after, orphans[1..]);
    assert !HasName(rows, orphans[0].name);
    assert forall i :: 0 <= i < |orphans[1..]| ==> orphans[1..][i] == orphans[i + 1];
    assert !HasName(after, orphans[0].name);
  }

  lemma FirstTracked(rows: seq<Row>, next: seq<Row>, after: seq<Row>, orphans: seq<Orphan>)
    requires orphans != [] && Grown(next, after, orphans[1..])
    requires |next| == |rows| + 1 && next[|rows|].name == orphans[0].name
    ensures AllTracked(after, orphans) <==> AllTracked(after, orphans[1..])
  {
    GrownMembers(next, after, orphans[1..]);
    assert next[|rows|] in after;
    assert HasName(after, orphans[0].name);
    assert forall k :: 1 <= k < |orphans| ==> orphans[k] == orphans[1..][k - 1];
    assert forall k :: 0 <= k < |orphans[1..]| ==> orphans[1..][k] == orphans[k + 1];
  }

  lemma IdsFitStep(rows: seq<Row>, next: seq<Row>, orphans: seq<Orphan>)
    requires orphans != [] && !HasId(rows, orphans[0].parsed.vm)
    requires |next| == |rows| + 1 && next[..|rows|] == rows && next[|rows|].vm == orphans[0].parsed.vm
    ensures IdsFit(next, orphans[1..]) <==> IdsFit(rows, orphans)
  {
    var rest := orphans[1..];
    assert next == rows + [next[|rows|]];
    assert forall vm :: HasId(next, vm) <==> HasId(rows, vm) || vm == orphans[0].parsed.vm by {
      IdsAfter(rows, next[|rows|]);
    }
    hide HasId;
    assert forall k :: 0 <= k < |rest| ==> rest[k] == orphans[k + 1];
    if IdsFit(next, rest) {
      forall k | 0 < k < |orphans|
        ensures !HasId(rows, orphans[k].parsed.vm) && orphans[0].parsed.vm != orphans[k].parsed.vm
      {
        assert orphans[k] == rest[k - 1];
      }
      forall i, j | 0 < i < j < |orphans| ensures orphans[i].parsed.vm != orphans[j].parsed.vm {
        assert orphans[i] == rest[i - 1] && orphans[j] == rest[j - 1];
      }
    }
  }

  lemma IdsAfter(rows: seq<Row>, r: Row)
    ensures forall vm :: HasId(rows + [r], vm) <==> HasId(rows, vm) || vm == r.vm
  {
    forall vm ensures HasId(rows + [r], vm) <==> HasId(rows, vm) || vm == r.vm {
      assert r in rows + [r];
    }
  }

  // ------------------------------------------------------------------ purging

  lemma {:induction false} RowAtIs(rows: seq<Row>, vm: string)
    ensures RowAt(rows, vm).Some? ==> RowAt(rows, vm).value in rows && RowAt(rows, vm).value.vm == vm
    ensures RowAt(rows, vm).None? ==> forall r :: r in rows ==> r.vm != vm
  {
    if rows == [] {
    } else {
      SplitLast(rows);
      RowAtIs(rows[..|rows| - 1], vm);
    }
  }

  lemma {:induction false} WithoutRowIs(rows: seq<Row>, vm: string)
    ensures forall r :: r in WithoutRow(rows, vm) <==> r in rows && r.vm != vm
  {
    if rows == [] {
    } else {
      SplitLast(rows);
      WithoutRowIs(rows[..|rows| - 1], vm);
    }
  }

  lemma {:induction false} WithoutRowUnique(rows: seq<Row>, vm: string)
    requires Unique(rows)
    ensures Unique(WithoutRow(rows, vm))
  {
    if rows == [] {
    } else {
      var before, last := rows[..|rows| - 1], rows[|rows| - 1];
      WithoutRowUnique(before, vm);
      WithoutRowIs(before, vm);
      assert forall r :: r in before ==> r.vm != last.vm && r.name != last.name;
      if last.vm != vm {
        UniqueAppend(WithoutRow(before, vm), last);
      }
    }
  }

  /** An admin may purge any row, others those of their own in their own project. */
  ghost predicate Permitted(caller: Caller, r: Row) {
    caller.isAdmin || (caller.project == r.project && caller.user == r.owner)
  }

  /**
   A purge takes away one row at most, one the caller may purge and whose domain does not exist;
   otherwise it names the reason, in this order: no such row, not permitted, the domain exists.
  */
  lemma PurgeIsSafe(rows: seq<Row>, domains: seq<Domain>, caller: Caller, vm: string)
    requires Unique(rows)
    ensures var (after, error) := Purged(rows, domains, caller, vm);
            && Unique(after)
            && (forall r :: r in after ==> r in rows)
            && (forall r :: r in rows && r !in after ==>
                              error == None && r.vm == vm && Permitted(caller, r) && !Defined(domains, r.name))
            && (error == None
              <==> exists r :: r in rows && r.vm == vm && Permitted(caller, r) && !Defined(domains, r.name))
            && (error == Some(NotFound) <==> forall r :: r in rows ==> r.vm != vm)
            && (error == Some(NotOwner) <==> exists r :: r in rows && r.vm == vm && !Permitted(caller, r))
            && (error == Some(StillExists)
              <==> exists r :: r in rows && r.vm == vm && Permitted(caller, r) && Defined(domains, r.name))
  {
    hide Defined;
    RowAtIs(rows, vm);
    WithoutRowIs(rows, vm);
    WithoutRowUnique(rows, vm);
    OneRowPerId(rows);
    PermittedIff(caller);
    hide MayPurge, Permitted;
  }

  lemma PermittedIff(caller: Caller)
    ensures forall r :: Permitted(caller, r) <==> MayPurge(caller, r)
  {
  }

  lemma OneRowPerId(rows: seq<Row>)
    requires Unique(rows)
    ensures forall r, s :: r in rows && s in rows && r.vm == s.vm ==> r == s
  {
  }

  /** The row stays in any purge by this caller. */
  ghost predicate Kept(domains: seq<Domain>, caller: Caller, r: Row) {
    Defined(domains, r.name) || !Permitted(caller, r)
  }

  lemma PurgeLeaves(rows: seq<Row>, domains: seq<Domain>, caller: Caller, vm: string)
    requires Unique(rows)
    ensures var after := Purged(rows, domains, caller, vm).0;
            Unique(after) && forall r :: r in after <==> r in rows && (Kept(domains, caller, r) || r.vm != vm)
  {
    hide Defined;
    PermittedIff(caller);
    hide MayPurge, Permitted;
    RowAtIs(rows, vm);
    WithoutRowIs(rows, vm);
    WithoutRowUnique(rows, vm);
    OneRowPerId(rows);
  }

  ghost predicate GhostFor(ghosts: seq<Ghost>, vm: string) {
    exists g :: g in ghosts && g.vm == vm
  }

  lemma {:induction false} PurgeEachLeaves(rows: seq<Row>, domains: seq<Domain>, caller: Caller, ghosts: seq<Ghost>)
    requires Unique(rows)
    ensures var after := PurgeEach(rows, domains, caller, ghosts);
            && Unique(after)
            && forall r :: r in after <==> r in rows && (Kept(domains, caller, r) || !GhostFor(ghosts, r.vm))
    decreases |ghosts|
  {
    hide Kept, Purged, Unique;
    if ghosts == [] {
    } else {
      var next := Purged(rows, domains, caller, ghosts[0].vm).0;
      PurgeLeaves(rows, domains, caller, ghosts[0].vm);
      PurgeEachLeaves(next, domains, caller, ghosts[1..]);
      assert ghosts == [ghosts[0]] + ghosts[1..];
      assert forall vm :: GhostFor(ghosts, vm) <==> vm == ghosts[0].vm || GhostFor(ghosts[1..], vm) by {
        GhostsAfterFirst(ghosts);
      }
    }
  }

  lemma GhostsAfterFirst(ghosts: seq<Ghost>)
    requires ghosts != []
    ensures forall vm :: GhostFor(ghosts, vm) <==> vm == ghosts[0].vm || GhostFor(ghosts[1..], vm)
  {
    forall vm ensures GhostFor(ghosts, vm) <==> vm == ghosts[0].vm || GhostFor(ghosts[1..], vm) {
      assert ghosts == [ghosts[0]] + ghosts[1..];
    }
  }

  // ------------------------------------------------------------------ the whole repair

  lemma OrphansComeFrom(rows: seq<Row>, domains: seq<Domain>)
    ensures var orphans := OrphansOf(Listed(domains), rows);
            FromEach(domains, orphans) && NamesUntracked(rows, orphans)
  {
    hide Parse, HasName;
    OrphansAre(Listed(domains), rows);
    ListedAre(domains);
    var orphans := OrphansOf(Listed(domains), rows);
    forall k | 0 <= k < |orphans| ensures From(domains, orphans[k]) && !HasName(rows, orphans[k].name) {
      assert orphans[k] in orphans;
    }
  }

  /** The rows between the two halves of a repair. */
  function Midway(rows: seq<Row>, domains: seq<Domain>, caller: Caller): seq<Row> {
    AdoptEach(rows, domains, caller, OrphansOf(Listed(domains), rows))
  }

  lemma MidwayRows(rows: seq<Row>, domains: seq<Domain>, caller: Caller)
    requires Unique(rows) && UniqueNames(domains)
    ensures var orphans := OrphansOf(Listed(domains), rows);
            var mid := Midway(rows, domains, caller);
            Unique(mid) && Grown(rows, mid, orphans) && (AllTracked(mid, orphans) <==> IdsFit(rows, orphans))
  {
    hide Unique, UniqueNames, Grown, AllTracked, IdsFit;
    ListedUnique(domains);
    OrphansUnique(Listed(domains), rows);
    OrphansComeFrom(rows, domains);
    AdoptEachGrows(rows, domains, caller, OrphansOf(Listed(domains), rows));
  }

  /** After a repair a row is one from midway, unless it was a ghost that this caller could purge. */
  lemma RepairedRows(rows: seq<Row>, domains: seq<Domain>, caller: Caller)
    requires Unique(rows) && UniqueNames(domains)
    ensures var mid := Midway(rows, domains, caller);
            var after := Repaired(rows, domains, caller);
            && Unique(after)
            && forall r :: r in after <==>
                             r in mid && (Kept(domains, caller, r) || !GhostFor(GhostsOf(rows, Listed(domains)), r.vm))
  {
    hide Unique, UniqueNames, Kept, GhostFor, Grown, AllTracked, IdsFit;
    MidwayRows(rows, domains, caller);
    PurgeEachLeaves(Midway(rows, domains, caller), domains, caller, GhostsOf(rows, Listed(domains)));
  }

  /** For the name of a domain, tracked after the repair means tracked midway. */
  lemma TrackedAfter(rows: seq<Row>, domains: seq<Domain>, caller: Caller, name: string)
    requires Unique(rows) && UniqueNames(domains) && Defined(domains, name)
    ensures HasName(Repaired(rows, domains, caller), name) <==> HasName(Midway(rows, domains, caller), name)
  {
    hide Unique, UniqueNames, Repaired, Midway, GhostFor;
    RepairedRows(rows, domains, caller);
  }

  lemma {:induction false} SameForeign(listed: seq<Domain>, a: seq<Row>, b: seq<Row>)
    requires forall k :: 0 <= k < |listed| && Parse(listed[k].name).None? ==>
                           (HasName(a, listed[k].name) <==> HasName(b, listed[k].name))
    ensures ForeignOf(listed, a) == ForeignOf(listed, b)
  {
    hide Parse, HasName;
    if listed == [] {
    } else {
      SameForeign(listed[..|listed| - 1], a, b);
    }
  }

  lemma ForeignUnchanged(rows: seq<Row>, domains: seq<Domain>, caller: Caller)
    requires Unique(rows) && UniqueNames(domains)
    ensures ForeignOf(Listed(domains), Repaired(rows, domains, caller)) == ForeignOf(Listed(domains), rows)
  {
    hide Unique, UniqueNames, Repaired, Midway, AllTracked, IdsFit, Grown;
    var listed, after := Listed(domains), Repaired(rows, domains, caller);
    ListedAre(domains);
    forall k | 0 <= k < |listed| && Parse(listed[k].name).None?
      ensures HasName(after, listed[k].name) <==> HasName(rows, listed[k].name)
    {
      var name := listed[k].name;
      assert listed[k] in domains;
      TrackedAfter(rows, domains, caller, name);
      UnparsedMidway(rows, domains, caller, name);
    }
    SameForeign(listed, after, rows);
  }

  lemma UnparsedMidway(rows: seq<Row>, domains: seq<Domain>, caller: Caller, name: string)
    requires Unique(rows) && UniqueNames(domains) && Parse(name).None?
    ensures HasName(Midway(rows, domains, caller), name) <==> HasName(rows, name)
  {
    hide Unique, UniqueNames, Midway, Parse, AllTracked, IdsFit, Grown;
    var orphans := OrphansOf(Listed(domains), rows);
    MidwayRows(rows, domains, caller);
    GrownMembers(rows, Midway(rows, domains, caller), orphans);
    OrphansComeFrom(rows, domains);
    assert forall i :: 0 <= i < |orphans| ==> From(domains, orphans[i]) && Parse(orphans[i].name).Some?;
  }

  /** No orphan is left exactly when the parsed ids were distinct and untracked. */
  lemma {:induction false} OrphansGoneIff(rows: seq<Row>, domains: seq<Domain>, caller: Caller)
    requires Unique(rows) && UniqueNames(domains)
    ensures OrphansOf(Listed(domains), Repaired(rows, domains, caller)) == []
            <==> IdsFit(rows, OrphansOf(Listed(domains), rows))
  {
    hide Unique, UniqueNames, Repaired, Midway, Parse, HasName, Grown, IdsFit, Listed;
    var listed := Listed(domains);
    var orphans, mid, after := OrphansOf(listed, rows), Midway(rows, domains, caller), Repaired(rows, domains, caller);
    MidwayRows(rows, domains, caller);
    OrphansAre(listed, rows);
    OrphansAre(listed, after);
    ListedAre(domains);
    forall d | d in listed ensures HasName(after, d.name) <==> HasName(mid, d.name) {
      TrackedAfter(rows, domains, caller, d.name);
    }
    if AllTracked(mid, orphans) {
      forall d | d in listed && Parse(d.name).Some? ensures HasName(after, d.name) {
        StaysTracked(rows, mid, orphans, d, listed);
      }
      AllTrackedLeavesNone(listed, after);
    } else {
      var k :| 0 <= k < |orphans| && !HasName(mid, orphans[k].name);
      assert orphans[k] in orphans;
      var d :| d in listed && !HasName(rows, d.name) && Parse(d.name).Some? && orphans[k] == OrphanOf(d);
      assert OrphanOf(d) in OrphansOf(listed, after);
    }
  }

  lemma {:induction false} AllTrackedLeavesNone(listed: seq<Domain>, rows: seq<Row>)
    requires forall k :: 0 <= k < |listed| && Parse(listed[k].name).Some? ==> HasName(rows, listed[k].name)
    ensures OrphansOf(listed, rows) == []
  {
    hide Parse, HasName;
    if listed == [] {
    } else {
      AllTrackedLeavesNone(listed[..|listed| - 1], rows);
    }
  }

  lemma {:induction false} StaysTracked(rows: seq<Row>, mid: seq<Row>, orphans: seq<Orphan>, d: Domain,
                                        listed: seq<Domain>)
    requires orphans == OrphansOf(listed, rows) && d in listed && Parse(d.name).Some?
    requires Grown(rows, mid, orphans) && AllTracked(mid, orphans)
    ensures HasName(mid, d.name)
  {
    hide Parse;
    if HasName(rows, d.name) {
      GrownMembers(rows, mid, orphans);
    } else {
      OrphansAre(listed, rows);
      assert OrphanOf(d) in orphans;
      var k :| 0 <= k < |orphans| && orphans[k] == OrphanOf(d);
    }
  }

  /** A ghost that this caller cannot purge: its domain exists but did not answer, or its row is not the caller's. */
  ghost predicate Stays(rows: seq<Row>, domains: seq<Domain>, caller: Caller, g: Ghost) {
    exists r :: r in rows && !Defined(Listed(domains), r.name) && g == GhostOf(r) && Kept(domains, caller, r)
  }

  /** The ghosts left are exactly the ones that could not be purged. */
  lemma {:induction false} GhostsLeft(rows: seq<Row>, domains: seq<Domain>, caller: Caller, g: Ghost)
    requires Unique(rows) && UniqueNames(domains)
    ensures g in GhostsOf(Repaired(rows, domains, caller), Listed(domains)) <==> Stays(rows, domains, caller, g)
  {
    hide Unique, UniqueNames, Repaired, Midway, AllTracked, IdsFit, Grown, Listed, Parse, Kept;
    var listed := Listed(domains);
    var mid, after := Midway(rows, domains, caller), Repaired(rows, domains, caller);
    var orphans := OrphansOf(listed, rows);
    MidwayRows(rows, domains, caller);
    GrownMembers(rows, mid, orphans);
    RepairedRows(rows, domains, caller);
    GhostsAre(rows, listed);
    GhostsAre(after, listed);
    OrphansAre(listed, rows);
    assert forall o :: o in orphans ==> Defined(listed, o.name);
    assert forall i :: 0 <= i < |orphans| ==> orphans[i] in orphans;
    forall r | r in rows && !Defined(listed, r.name) ensures r in after <==> Kept(domains, caller, r) {
      assert GhostOf(r) in GhostsOf(rows, listed);
      assert GhostFor(GhostsOf(rows, listed), r.vm);
    }
    GhostsMatch(rows, after, domains, caller, listed, g);
  }

  lemma GhostsMatch(rows: seq<Row>, after: seq<Row>, domains: seq<Domain>, caller: Caller, listed: seq<Domain>,
                    g: Ghost)
    requires listed == Listed(domains)
    requires forall r :: r in after && !Defined(listed, r.name) ==> r in rows
    requires forall r :: r in rows && !Defined(listed, r.name) ==> (r in after <==> Kept(domains, caller, r))
    ensures g in GhostsOf(after, listed) <==> Stays(rows, domains, caller, g)
  {
    hide Defined, Kept, Listed;
    GhostsAre(after, listed);
  }

  /**
   Adopting every orphan and then purging every ghost, whoever does it, keeps ids and names unique
   and leaves the foreign list alone; no orphan is left if and only if the parsed ids were distinct
   and untracked; and the ghosts left are those whose domain exists but failed to answer, or whose
   row belongs to somebody else.
  */
  lemma FollowingTheReportRepairs(rows: seq<Row>, domains: seq<Domain>, caller: Caller, g: Ghost)
    requires Unique(rows) && UniqueNames(domains)
    ensures var report := ReportOf(rows, domains);
            var after := Repaired(rows, domains, caller);
            var now := ReportOf(after, domains);
            && Unique(after)
            && now.foreign == report.foreign
            && (now.orphans == [] <==> IdsFit(rows, report.orphans))
            && (g in now.ghosts <==> Stays(rows, domains, caller, g))
  {
    hide Unique, UniqueNames, Repaired, IdsFit, Listed, OrphansOf, ForeignOf, GhostsOf, Stays;
    RepairedRows(rows, domains, caller);
    ForeignUnchanged(rows, domains, caller);
    OrphansGoneIff(rows, domains, caller);
    GhostsLeft(rows, domains, caller, g);
  }

  // ------------------------------------------------------------------ entry by entry

  /** Being tracked and being defined are matters of the names, and of nothing else. */
  lemma NamesDecide(rows: seq<Row>, domains: seq<Domain>, name: string, vm: string)
    ensures HasName(rows, name) <==> exists k :: 0 <= k < |rows| && rows[k].name == name
    ensures HasId(rows, vm) <==> exists k :: 0 <= k < |rows| && rows[k].vm == vm
    ensures Defined(domains, name) <==> exists k :: 0 <= k < |domains| && domains[k].name == name
    ensures Defined(Listed(domains), name) <==>
              exists k :: 0 <= k < |domains| && domains[k].name == name && domains[k].readable
  {
    ListedAre(domains);
    if k :| 0 <= k < |rows| && rows[k].name == name {
      assert rows[k] in rows;
    }
    if k :| 0 <= k < |rows| && rows[k].vm == vm {
      assert rows[k] in rows;
    }
    if k :| 0 <= k < |domains| && domains[k].name == name {
      assert domains[k] in domains;
    }
    if k :| 0 <= k < |domains| && domains[k].name == name && domains[k].readable {
      assert domains[k] in Listed(domains);
    }
  }

  /** What the report says of a domain or a row is what it is: name, parts, disk, whether it runs. */
  lemma ReportEntriesAre(rows: seq<Row>, domains: seq<Domain>, o: Orphan, f: Foreign, g: Ghost)
    ensures var report := ReportOf(rows, domains);
            && (o in report.orphans <==>
                  exists d :: d in domains && d.readable && !HasName(rows, d.name) && d.name == o.name
                              && d.diskGb == o.diskGb && d.active == o.active && Parse(d.name) == Some(o.parsed))
            && (f in report.foreign <==>
                  exists d :: d in domains && d.readable && !HasName(rows, d.name) && d.name == f.name
                              && d.diskGb == f.diskGb && d.active == f.active && Parse(d.name) == None)
            && (g in report.ghosts <==>
                  exists r :: r in rows && !Defined(Listed(domains), r.name) && r.name == g.name
                              && r.vm == g.vm && r.project == g.project && r.display == g.display)
  {
    hide Parse, HasName, Defined, Listed;
    ListedAre(domains);
    OrphansAre(Listed(domains), rows);
    ForeignAre(Listed(domains), rows);
    GhostsAre(rows, Listed(domains));
    if d :| d in domains && d.readable && !HasName(rows, d.name) && d.name == o.name
            && d.diskGb == o.diskGb && d.active == o.active && Parse(d.name) == Some(o.parsed) {
      assert d in Listed(domains) && o == OrphanOf(d);
    }
    if d :| d in domains && d.readable && !HasName(rows, d.name) && d.name == f.name
            && d.diskGb == f.diskGb && d.active == f.active && Parse(d.name) == None {
      assert d in Listed(domains) && f == Foreign(d.name, d.diskGb, d.active);
    }
    if r :| r in rows && !Defined(Listed(domains), r.name) && r.name == g.name
            && r.vm == g.vm && r.project == g.project && r.display == g.display {
      assert g == GhostOf(r);
    }
  }

  /** Why an adoption is refused, in this order; any readable domain behind a free id and name is adopted. */
  lemma AdoptionAnswers(rows: seq<Row>, domains: seq<Domain>, caller: Caller, name: string)
    requires UniqueNames(domains)
    ensures var (after, error) := Adopted(rows, domains, caller, name);
            var there := exists d :: d in domains && d.readable && d.name == name;
            && (error == Some(Malformed) <==> Parse(name).None?)
            && (error == Some(NotFound) <==> Parse(name).Some? && !there)
            && (error == Some(AlreadyTracked) <==> Parse(name).Some? && there && HasId(rows, Parse(name).value.vm))
            && (error == Some(NameTaken) <==>
                  Parse(name).Some? && there && !HasId(rows, Parse(name).value.vm) && HasName(rows, name))
            && (error == None <==>
                  Parse(name).Some? && there && !HasId(rows, Parse(name).value.vm) && !HasName(rows, name))
  {
    hide Parse, HasId, HasName;
    DomainAtName(domains, name);
    if d :| d in domains && d.name == name {
      DomainAtIs(domains, d);
    }
  }
}
