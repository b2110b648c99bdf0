/**
 The resource caps, and what admission does to them.  It rounds the free memory to two decimals,
 and that rounding is all the overshoot that it causes.
*/
module AdmissionCaps {
  import opened AdmissionModel

  // ------------------------------------------------------------------ rounding

  lemma RoundingError(x: real)
    ensures x - 0.005 <= Round2(x) <= x + 0.005
  {
    var y := x * 100.0;
    var low := y.Floor;
    assert low as real <= y < low as real + 1.0;
  }

  lemma NothingRoundsToNothing()
    ensures Round2(0.0) == 0.0
  {
    assert (0.0 * 100.0).Floor == 0;
  }

  /**
   What the rounding means for a request: if it is admitted against `used`, usage afterwards
   exceeds the usable memory by at most half a hundredth, however much it exceeded it before.
  */
  lemma AdmittedRamFits(usable: real, used: real, ram: real)
    requires ram > 0.0 && ram <= Round2(MaxReal(0.0, usable - used))
    ensures used + ram <= MaxReal(0.0, usable) + 0.005
    ensures used < usable
  {
    RoundingError(MaxReal(0.0, usable - used));
    if used >= usable {
      NothingRoundsToNothing();
    }
  }

  // ------------------------------------------------------------------ weights under updates

  lemma WeighAppend<T>(s: seq<T>, x: T, f: T -> int)
    ensures Weigh(s + [x], f) == Weigh(s, f) + f(x)
  {
    assert (s + [x])[..|s|] == s;
  }

  lemma {:induction false} HaltingSheds(domains: seq<Domain>, vm: VmId, f: Domain -> int)
    requires forall i :: 0 <= i < |domains| ==> f(domains[i].(active := false)) <= f(domains[i])
    ensures Weigh(MapDomains(domains, vm, false), f) <= Weigh(domains, f)
  {
    if domains == [] {
    } else {
      var before, last := domains[..|domains| - 1], domains[|domains| - 1];
      HaltingSheds(before, vm, f);
      WeighAppend(MapDomains(before, vm, false), if last.vm == vm then last.(active := false) else last, f);
    }
  }

  lemma {:induction false} DomainDropSheds(domains: seq<Domain>, vm: VmId, f: Domain -> int)
    requires forall i :: 0 <= i < |domains| ==> f(domains[i]) >= 0
    ensures Weigh(DropDomains(domains, vm), f) <= Weigh(domains, f)
  {
    if domains == [] {
    } else {
      var before, last := domains[..|domains| - 1], domains[|domains| - 1];
      DomainDropSheds(before, vm, f);
      if last.vm != vm {
        WeighAppend(DropDomains(before, vm), last, f);
      } else {
        assert DropDomains(domains, vm) == DropDomains(before, vm);
      }
    }
  }

  lemma {:induction false} RowChangeSheds(rows: seq<Row>, vm: VmId, change: Change, f: Row -> int)
    requires forall i :: 0 <= i < |rows| ==> f(Changed(rows[i], change)) <= f(rows[i])
    ensures Weigh(MapRows(rows, vm, change), f) <= Weigh(rows, f)
  {
    if rows == [] {
    } else {
      var before, last := rows[..|rows| - 1], rows[|rows| - 1];
      RowChangeSheds(before, vm, change, f);
      WeighAppend(MapRows(before, vm, change), if last.vm == vm then Changed(last, change) else last, f);
    }
  }

  lemma {:induction false} DroppingSheds(rows: seq<Row>, vm: VmId, f: Row -> int)
    requires forall i :: 0 <= i < |rows| ==> f(rows[i]) >= 0
    ensures Weigh(DropRows(rows, vm), f) <= Weigh(rows, f)
  {
    if rows == [] {
    } else {
      var before, last := rows[..|rows| - 1], rows[|rows| - 1];
      DroppingSheds(before, vm, f);
      if last.vm != vm {
        WeighAppend(DropRows(before, vm), last, f);
      } else {
        assert DropRows(rows, vm) == DropRows(before, vm);
      }
    }
  }

  // ------------------------------------------------------------------ the caps

  ghost predicate NonNegative(w: World) {
    && (forall i :: 0 <= i < |w.rows| ==> w.rows[i].diskGb >= 0)
    && (forall i :: 0 <= i < |w.domains| ==> w.domains[i].vcpus >= 0 && w.domains[i].memKib >= 0)
  }

  ghost predicate WithinCaps(w: World, cfg: Config) {
    && Weigh(w.domains, ActiveVcpus()) <= cfg.maxVcpus
    && KibToGib(Weigh(w.domains, ActiveKib())) <= MaxReal(0.0, cfg.usableRam) + 0.005
    && (forall p :: Weigh(w.rows, DiskOf(p)) <= cfg.maxDisk)
    && (forall p :: Weigh(w.rows, RunningOf(p)) <= cfg.maxRunning)
    && Weigh(w.rows, InstallingOf()) <= cfg.maxInstalls
  }

  ghost predicate Inv(w: World, cfg: Config) {
    NonNegative(w) && WithinCaps(w, cfg)
  }

  /** The sizes the handler reads, if it can read them, are positive. */
  predicate Positive(r: Request) {
    var s := HandlerSizes(r); s.Some? ==> s.value.cpu > 0 && s.value.ramMb > 0 && s.value.diskGb > 0
  }

  lemma CreatingStaysWithinCaps(w: World, cfg: Config, r: Request, sizes: Sizes)
    requires Inv(w, cfg) && sizes.cpu > 0 && sizes.ramMb > 0 && sizes.diskGb > 0
    requires Admission(w, cfg, ALL_LISTED, r, sizes).Admitted?
    ensures Inv(WithVm(w, r, sizes), cfg)
  {
    var w' := WithVm(w, r, sizes);
    var row, dom := w'.rows[|w.rows|], w'.domains[|w.domains|];
    WeighAppend(w.domains, dom, ActiveVcpus());
    WeighAppend(w.domains, dom, ActiveKib());
    WeighAppend(w.rows, row, InstallingOf());
    forall p
      ensures Weigh(w'.rows, DiskOf(p)) <= cfg.maxDisk && Weigh(w'.rows, RunningOf(p)) <= cfg.maxRunning
    {
      WeighAppend(w.rows, row, DiskOf(p));
      WeighAppend(w.rows, row, RunningOf(p));
    }
    AdmittedRamFits(cfg.usableRam, UsedGib(w, Listed), sizes.ramMb as real / 1024.0);
  }

  /** A handler's sizes are numbers, so its check decides unless the memory asked for is beyond float range. */
  lemma AdmissionRaisesIff(w: World, cfg: Config, answers: Answers, r: Request, sizes: Sizes)
    ensures Admission(w, cfg, answers, r, sizes).Raises?
            <==> Overflows(Whole(sizes.ramMb))
                 && !(r.job.Installer? && Weigh(w.rows, InstallingOf()) >= cfg.maxInstalls)
  {
  }

  lemma CapsIgnoreQueue(w: World, w': World, cfg: Config)
    requires w'.rows == w.rows && w'.domains == w.domains
    ensures NonNegative(w) <==> NonNegative(w')
    ensures WithinCaps(w, cfg) <==> WithinCaps(w', cfg)
    ensures Inv(w, cfg) <==> Inv(w', cfg)
  {
  }

  lemma HandlingStaysWithinCaps(w: World, cfg: Config, r: Request, luck: Luck, now: Time)
    requires Inv(w, cfg) && Positive(r) && luck.handlerAnswers == ALL_LISTED
    ensures Inv(Handle(w, cfg, r, luck, now).0, cfg)
  {
    hide Admission, Inv, HandlerSizes;
    var (w', outcome) := Handle(w, cfg, r, luck, now);
    if outcome.CreatedVm? {
      CreatingStaysWithinCaps(w, cfg, r, HandlerSizes(r).value);
    } else {
      CapsIgnoreQueue(w, w', cfg);
    }
  }

  lemma {:induction false} PassStaysWithinCaps(w: World, cfg: Config, entries: seq<Entry>, lucks: Lucks, now: Time)
    requires Inv(w, cfg)
    requires forall i :: 0 <= i < |entries| ==>
                           Positive(entries[i].request) && lucks(entries[i].id).handlerAnswers == ALL_LISTED
    ensures Inv(PassOver(w, cfg, entries, lucks, now).w, cfg)
  {
    if entries == [] {
    } else {
      var before, e := entries[..|entries| - 1], entries[|entries| - 1];
      PassStaysWithinCaps(w, cfg, before, lucks, now);
      var mid := PassOver(w, cfg, before, lucks, now).w;
      var taken := Taken(mid, e.id);
      HandlingStaysWithinCaps(taken, cfg, e.request, lucks(e.id), now);
    }
  }

  ghost predicate PositiveQueue(w: World) {
    forall i :: 0 <= i < |w.queue| ==> Positive(w.queue[i].request)
  }

  lemma {:induction false} PendingComesFromQueue(queue: seq<Entry>)
    ensures forall i :: 0 <= i < |Pending(queue)| ==> Pending(queue)[i] in queue
  {
    if queue == [] {
    } else {
      PendingComesFromQueue(queue[..|queue| - 1]);
    }
  }

  lemma {:induction false} StatusKeepsRequests(queue: seq<Entry>, id: EntryId, status: Status)
    ensures |SetStatus(queue, id, status)| == |queue|
    ensures forall i :: 0 <= i < |queue| ==>
              SetStatus(queue, id, status)[i] == if queue[i].id == id then queue[i].(status := status) else queue[i]
  {
    if queue == [] {
    } else {
      StatusKeepsRequests(queue[..|queue| - 1], id, status);
    }
  }

  lemma {:induction false} ExpiryKeepsRequests(queue: seq<Entry>, cutoff: Time)
    ensures |ExpireOlder(queue, cutoff)| == |queue|
    ensures forall i :: 0 <= i < |queue| ==>
              ExpireOlder(queue, cutoff)[i]
              == if queue[i].status.Waiting? && queue[i].createdAt < cutoff then queue[i].(status := Expired)
                 else queue[i]
  {
    if queue == [] {
    } else {
      ExpiryKeepsRequests(queue[..|queue| - 1], cutoff);
    }
  }

  lemma HandleKeepsPositive(w: World, cfg: Config, r: Request, luck: Luck, now: Time)
    requires PositiveQueue(w) && Positive(r)
    ensures PositiveQueue(Handle(w, cfg, r, luck, now).0)
  {
  }

  lemma PromoteKeepsPositive(w: World, cfg: Config, e: Entry, luck: Luck, now: Time)
    requires PositiveQueue(w) && Positive(e.request)
    ensures PositiveQueue(Promote(w, cfg, e, luck, now))
  {
    hide Handle;
    StatusKeepsRequests(w.queue, e.id, Processing);
    HandleKeepsPositive(Taken(w, e.id), cfg, e.request, luck, now);
    var (after, outcome) := Handle(Taken(w, e.id), cfg, e.request, luck, now);
    StatusKeepsRequests(after.queue, e.id, if outcome.Failed? then Expired else Done);
  }

  lemma {:induction false} PassKeepsPositive(w: World, cfg: Config, entries: seq<Entry>, lucks: Lucks, now: Time)
    requires PositiveQueue(w) && forall i :: 0 <= i < |entries| ==> Positive(entries[i].request)
    ensures PositiveQueue(PassOver(w, cfg, entries, lucks, now).w)
  {
    hide Promote;
    if entries == [] {
    } else {
      var before, e := entries[..|entries| - 1], entries[|entries| - 1];
      PassKeepsPositive(w, cfg, before, lucks, now);
      PromoteKeepsPositive(PassOver(w, cfg, before, lucks, now).w, cfg, e, lucks(e.id), now);
    }
  }

  // ------------------------------------------------------------------ steps that only free resources

  lemma {:induction false} DomainsStayNonNegative(domains: seq<Domain>, vm: VmId, active: bool)
    requires forall i :: 0 <= i < |domains| ==> domains[i].vcpus >= 0 && domains[i].memKib >= 0
    ensures forall i :: 0 <= i < |MapDomains(domains, vm, active)| ==>
              MapDomains(domains, vm, active)[i].vcpus >= 0 && MapDomains(domains, vm, active)[i].memKib >= 0
    ensures forall i :: 0 <= i < |DropDomains(domains, vm)| ==>
              DropDomains(domains, vm)[i].vcpus >= 0 && DropDomains(domains, vm)[i].memKib >= 0
  {
    if domains == [] {
    } else {
      DomainsStayNonNegative(domains[..|domains| - 1], vm, active);
    }
  }

  lemma {:induction false} RowsStayNonNegative(rows: seq<Row>, vm: VmId, change: Change)
    requires forall i :: 0 <= i < |rows| ==> rows[i].diskGb >= 0
    ensures forall i :: 0 <= i < |MapRows(rows, vm, change)| ==> MapRows(rows, vm, change)[i].diskGb >= 0
    ensures forall i :: 0 <= i < |DropRows(rows, vm)| ==> DropRows(rows, vm)[i].diskGb >= 0
  {
    if rows == [] {
    } else {
      RowsStayNonNegative(rows[..|rows| - 1], vm, change);
    }
  }

  lemma FateSheds(w: World, vm: VmId, fate: Fate)
    requires NonNegative(w)
    ensures var domains := AfterFate(w.domains, vm, fate);
            && Weigh(domains, ActiveVcpus()) <= Weigh(w.domains, ActiveVcpus())
            && Weigh(domains, ActiveKib()) <= Weigh(w.domains, ActiveKib())
            && NonNegative(w.(domains := domains))
  {
    hide Weigh, MapDomains, DropDomains;
    HaltingSheds(w.domains, vm, ActiveVcpus());
    HaltingSheds(w.domains, vm, ActiveKib());
    DomainDropSheds(w.domains, vm, ActiveVcpus());
    DomainDropSheds(w.domains, vm, ActiveKib());
    DomainsStayNonNegative(w.domains, vm, false);
  }

  /** Disk and installs only go down, whether rows change or are dropped. */
  lemma RowsShed(w: World, vm: VmId, change: Change, p: ProjectId)
    requires NonNegative(w)
    ensures Weigh(MapRows(w.rows, vm, change), DiskOf(p)) <= Weigh(w.rows, DiskOf(p))
    ensures Weigh(MapRows(w.rows, vm, change), InstallingOf()) <= Weigh(w.rows, InstallingOf())
  {
    hide Weigh, MapRows;
    RowChangeSheds(w.rows, vm, change, DiskOf(p));
    RowChangeSheds(w.rows, vm, change, InstallingOf());
  }

  lemma DropsShed(w: World, vm: VmId, p: ProjectId)
    requires NonNegative(w)
    ensures Weigh(DropRows(w.rows, vm), DiskOf(p)) <= Weigh(w.rows, DiskOf(p))
    ensures Weigh(DropRows(w.rows, vm), RunningOf(p)) <= Weigh(w.rows, RunningOf(p))
  {
    hide Weigh, DropRows;
    DroppingSheds(w.rows, vm, DiskOf(p));
    DroppingSheds(w.rows, vm, RunningOf(p));
  }

  lemma CapsShrink(w: World, w': World, cfg: Config)
    requires Inv(w, cfg) && NonNegative(w')
    requires forall p :: Weigh(w'.rows, DiskOf(p)) <= Weigh(w.rows, DiskOf(p))
    requires forall p :: Weigh(w'.rows, RunningOf(p)) <= Weigh(w.rows, RunningOf(p))
    requires Weigh(w'.rows, InstallingOf()) <= Weigh(w.rows, InstallingOf())
    requires Weigh(w'.domains, ActiveVcpus()) <= Weigh(w.domains, ActiveVcpus())
    requires Weigh(w'.domains, ActiveKib()) <= Weigh(w.domains, ActiveKib())
    ensures Inv(w', cfg)
  {
  }

  lemma {:induction false} StoppingStaysWithinCaps(w: World, cfg: Config, vm: VmId, change: Change, fate: Fate)
    requires Inv(w, cfg) && (change.Halt? || change.EndInstall?)
    ensures Inv(w.(rows := MapRows(w.rows, vm, change), domains := AfterFate(w.domains, vm, fate)), cfg)
  {
    hide Weigh, MapRows, DropRows, AfterFate, WithinCaps;
    var w' := w.(rows := MapRows(w.rows, vm, change), domains := AfterFate(w.domains, vm, fate));
    FateSheds(w, vm, fate);
    RowsStayNonNegative(w.rows, vm, change);
    forall p
      ensures Weigh(w'.rows, DiskOf(p)) <= Weigh(w.rows, DiskOf(p))
      ensures Weigh(w'.rows, RunningOf(p)) <= Weigh(w.rows, RunningOf(p))
      ensures Weigh(w'.rows, InstallingOf()) <= Weigh(w.rows, InstallingOf())
    {
      RowsShed(w, vm, change, p);
      RowChangeSheds(w.rows, vm, change, RunningOf(p));
    }
    RowChangeSheds(w.rows, vm, change, InstallingOf());
    CapsShrink(w, w', cfg);
  }

  lemma DeletingStaysWithinCaps(w: World, cfg: Config, vm: VmId, fate: Fate)
    requires Inv(w, cfg)
    ensures Inv(w.(rows := DropRows(w.rows, vm), domains := AfterFate(w.domains, vm, fate)), cfg)
  {
    hide Weigh, MapRows, DropRows, AfterFate, WithinCaps;
    var w' := w.(rows := DropRows(w.rows, vm), domains := AfterFate(w.domains, vm, fate));
    FateSheds(w, vm, fate);
    RowsStayNonNegative(w.rows, vm, Halt);
    forall p
      ensures Weigh(w'.rows, DiskOf(p)) <= Weigh(w.rows, DiskOf(p))
      ensures Weigh(w'.rows, RunningOf(p)) <= Weigh(w.rows, RunningOf(p))
    {
      DropsShed(w, vm, p);
    }
    DroppingSheds(w.rows, vm, InstallingOf());
    CapsShrink(w, w', cfg);
  }

  lemma HaltingStaysWithinCaps(w: World, cfg: Config, vm: VmId)
    requires Inv(w, cfg)
    ensures Inv(w.(domains := AfterFate(w.domains, vm, Off)), cfg)
  {
    hide Weigh, AfterFate, WithinCaps;
    FateSheds(w, vm, Off);
    CapsShrink(w, w.(domains := AfterFate(w.domains, vm, Off)), cfg);
  }
}
