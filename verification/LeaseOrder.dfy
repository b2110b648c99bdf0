/**
 A scan treats the rows one after the other, but its result does not depend on the order the
 database lists them in: each row's share of the state becomes what a single visit to it in
 the original state would make it.
*/
module LeaseOrder {
  import opened Common
  import opened LeaseModel

  // ------------------------------------------------------------------ concatenated output

  function Flatten<T>(order: seq<VmId>, out: VmId -> seq<T>): seq<T> {
    if order == [] then [] else Flatten(order[..|order| - 1], out) + out(order[|order| - 1])
  }

  lemma {:induction false} FlattenAppend<T>(x: seq<VmId>, y: seq<VmId>, out: VmId -> seq<T>)
    ensures Flatten(x + y, out) == Flatten(x, out) + Flatten(y, out)
  {
    if y == [] {
      assert x + y == x;
    } else {
      var y' := y[..|y| - 1];
      assert (x + y)[..|x + y| - 1] == x + y';
      FlattenAppend(x, y', out);
    }
  }

  lemma FlattenAround<T>(x: seq<VmId>, id: VmId, y: seq<VmId>, out: VmId -> seq<T>)
    ensures multiset(Flatten(x + [id] + y, out)) == multiset(Flatten(x + y, out)) + multiset(out(id))
  {
    FlattenAppend(x + [id], y, out);
    FlattenAppend(x, [id], out);
    FlattenAppend(x, y, out);
    assert Flatten([id], out) == Flatten([], out) + out(id);
  }

  lemma {:induction false} FlattenPermuted<T>(a: seq<VmId>, b: seq<VmId>, out: VmId -> seq<T>)
    requires multiset(a) == multiset(b)
    ensures multiset(Flatten(a, out)) == multiset(Flatten(b, out))
    decreases |a|
  {
    if a == [] {
      assert |multiset(b)| == 0;
    } else {
      var x := a[0];
      assert x in multiset(a);
      var i :| 0 <= i < |b| && b[i] == x;
      SplitAt(a, 0);
      SplitAt(b, i);
      SameRest(a[..0], a[1..], x, b[..i], b[i + 1..]);
      FlattenPermuted(a[..0] + a[1..], b[..i] + b[i + 1..], out);
      FlattenAround(a[..0], x, a[1..], out);
      FlattenAround(b[..i], x, b[i + 1..], out);
    }
  }

  lemma {:induction false} OccursOnce(s: seq<VmId>, id: VmId)
    requires NoDuplicates(s)
    ensures multiset(s)[id] == if id in s then 1 else 0
  {
    if s == [] {
    } else {
      var before := s[..|s| - 1];
      OccursOnce(before, id);
      assert s == before + [s[|s| - 1]];
    }
  }

  lemma ListingsArePermutations(w: World, x: seq<VmId>, y: seq<VmId>)
    requires IsListing(w, x) && IsListing(w, y)
    ensures multiset(x) == multiset(y)
  {
    forall id ensures multiset(x)[id] == multiset(y)[id] {
      OccursOnce(x, id);
      OccursOnce(y, id);
    }
  }

  // ------------------------------------------------------------------ one visit at a time

  /** What visiting each row in the state `w` itself would do. */
  function Plan(w: World, cfg: Config, now: Time, reply: Replies): VmId -> Visited {
    id => if id in w.vms && w.vms[id].id == id then VisitOf(w, w.vms[id], cfg, now, reply)
          else Visited(Slot(None, None, None, false), [], [], [])
  }

  function Events(plan: VmId -> Visited): VmId -> seq<Event> { id => plan(id).events }

  function Notices(plan: VmId -> Visited): VmId -> seq<Notice> { id => plan(id).notices }

  function Entries(plan: VmId -> Visited): VmId -> seq<Entry> { id => plan(id).entries }

  ghost predicate Owned(w: World, name: DomainName) {
    exists id :: id in w.vms && w.vms[id].libvirtName == name
  }

  /** `s` is `w` with exactly the rows in `done` changed as planned, in whatever order. */
  ghost predicate VisitedExactly(w: World, s: World, done: seq<VmId>, plan: VmId -> Visited) {
    && s.callLog == w.callLog
    && s.vms.Keys <= w.vms.Keys
    && s.actions.Keys <= w.vms.Keys
    && (forall id :: id in w.vms ==>
          SlotOf(s, w.vms[id]) == if id in done then plan(id).slot else SlotOf(w, w.vms[id]))
    && (forall name :: !Owned(w, name) ==> Lookup(s.domains, name) == Lookup(w.domains, name))
    && (forall p, id :: (id in w.vms ==> w.vms[id].projectId != p) ==> ((p, id) in s.storage <==> (p, id) in w.storage))
  }

  lemma PutLeavesOthers(s: World, mine: VmRow, v: Visited, row: VmRow)
    requires row.id != mine.id && row.libvirtName != mine.libvirtName
    ensures SlotOf(Put(s, mine, v), row) == SlotOf(s, row)
  {
  }

  lemma PutFrameDomains(s: World, row: VmRow, v: Visited, name: DomainName)
    requires name != row.libvirtName
    ensures Lookup(Put(s, row, v).domains, name) == Lookup(s.domains, name)
  {
  }

  lemma PutFrameStorage(s: World, row: VmRow, v: Visited, p: ProjectId, id: VmId)
    requires p != row.projectId || id != row.id
    ensures (p, id) in Put(s, row, v).storage <==> (p, id) in s.storage
  {
  }

  lemma PutVisits(w: World, s: World, done: seq<VmId>, id: VmId, plan: VmId -> Visited)
    requires WellFormed(w) && id in w.vms && VisitedExactly(w, s, done, plan)
    ensures VisitedExactly(w, Put(s, w.vms[id], plan(id)), done + [id], plan)
  {
    var v := plan(id);
    var s' := Put(s, w.vms[id], v);
    PutSetsOwn(s, w.vms[id], v);
    forall x | x in w.vms
      ensures SlotOf(s', w.vms[x]) == if x in done + [id] then plan(x).slot else SlotOf(w, w.vms[x])
    {
      if x != id {
        PutLeavesOthers(s, w.vms[id], v, w.vms[x]);
      }
    }
    forall name | !Owned(w, name)
      ensures Lookup(s'.domains, name) == Lookup(w.domains, name)
    {
      PutFrameDomains(s, w.vms[id], v, name);
    }
    forall p, x | x in w.vms ==> w.vms[x].projectId != p
      ensures (p, x) in s'.storage <==> (p, x) in w.storage
    {
      PutFrameStorage(s, w.vms[id], v, p, x);
    }
  }

  lemma OneMoreVisit(w: World, s: World, done: seq<VmId>, id: VmId, cfg: Config, now: Time, reply: Replies)
    requires WellFormed(w) && id in w.vms && id !in done
    requires VisitedExactly(w, s, done, Plan(w, cfg, now, reply))
    ensures var v := Plan(w, cfg, now, reply)(id);
            var s' := VisitRow(s, id, cfg, now, reply);
            && VisitedExactly(w, s', done + [id], Plan(w, cfg, now, reply))
            && s'.events == s.events + v.events
            && s'.notices == s.notices + v.notices
            && s'.history == s.history + v.entries
  {
    VisitFollowsPlan(w, s, done, id, cfg, now, reply);
    PutVisits(w, s, done, id, Plan(w, cfg, now, reply));
  }

  /** A row not visited yet is found as it was when the scan began. */
  lemma VisitFollowsPlan(w: World, s: World, done: seq<VmId>, id: VmId, cfg: Config, now: Time, reply: Replies)
    requires WellFormed(w) && id in w.vms && id !in done
    requires VisitedExactly(w, s, done, Plan(w, cfg, now, reply))
    ensures VisitRow(s, id, cfg, now, reply) == Put(s, w.vms[id], Plan(w, cfg, now, reply)(id))
  {
    assert SlotOf(s, w.vms[id]) == SlotOf(w, w.vms[id]);
  }

  lemma {:induction false} ScanVisitsEach(w: World, order: seq<VmId>, cfg: Config, now: Time, reply: Replies)
    requires WellFormed(w) && NoDuplicates(order) && forall id :: id in order ==> id in w.vms
    ensures VisitedExactly(w, ScanRows(w, order, cfg, now, reply), order, Plan(w, cfg, now, reply))
  {
    if order == [] {
    } else {
      var before, last := order[..|order| - 1], order[|order| - 1];
      SplitLast(order);
      ScanVisitsEach(w, before, cfg, now, reply);
      OneMoreVisit(w, ScanRows(w, before, cfg, now, reply), before, last, cfg, now, reply);
    }
  }

  ghost predicate Emitted(w: World, s: World, order: seq<VmId>, plan: VmId -> Visited) {
    && s.events == w.events + Flatten(order, Events(plan))
    && s.notices == w.notices + Flatten(order, Notices(plan))
    && s.history == w.history + Flatten(order, Entries(plan))
  }

  lemma OneMoreOutput(w: World, s: World, s': World, order: seq<VmId>, plan: VmId -> Visited)
    requires order != [] && Emitted(w, s, order[..|order| - 1], plan)
    requires var v := plan(order[|order| - 1]);
             && s'.events == s.events + v.events
             && s'.notices == s.notices + v.notices
             && s'.history == s.history + v.entries
    ensures Emitted(w, s', order, plan)
  {
  }

  lemma {:induction false} ScanEmitsEach(w: World, order: seq<VmId>, cfg: Config, now: Time, reply: Replies)
    requires WellFormed(w) && NoDuplicates(order) && forall id :: id in order ==> id in w.vms
    ensures Emitted(w, ScanRows(w, order, cfg, now, reply), order, Plan(w, cfg, now, reply))
  {
    if order == [] {
    } else {
      var before, last := order[..|order| - 1], order[|order| - 1];
      SplitLast(order);
      ScanVisitsEach(w, before, cfg, now, reply);
      ScanEmitsEach(w, before, cfg, now, reply);
      var s := ScanRows(w, before, cfg, now, reply);
      OneMoreVisit(w, s, before, last, cfg, now, reply);
      OneMoreOutput(w, s, VisitRow(s, last, cfg, now, reply), order, Plan(w, cfg, now, reply));
    }
  }

  lemma SameWhenVisitedAlike(w: World, a: World, b: World, x: seq<VmId>, y: seq<VmId>, plan: VmId -> Visited)
    requires WellFormed(w) && forall id :: id in x <==> id in y
    requires VisitedExactly(w, a, x, plan) && VisitedExactly(w, b, y, plan)
    ensures a.vms == b.vms && a.actions == b.actions && a.domains == b.domains && a.storage == b.storage
  {
    forall id | id in w.vms
      ensures SlotOf(a, w.vms[id]) == SlotOf(b, w.vms[id])
    {
    }
    forall id
      ensures Lookup(a.vms, id) == Lookup(b.vms, id) && Lookup(a.actions, id) == Lookup(b.actions, id)
    {
      if id in w.vms {
        assert SlotOf(a, w.vms[id]) == SlotOf(b, w.vms[id]);
      }
    }
    forall name
      ensures Lookup(a.domains, name) == Lookup(b.domains, name)
    {
      if Owned(w, name) {
        var id :| id in w.vms && w.vms[id].libvirtName == name;
        assert SlotOf(a, w.vms[id]) == SlotOf(b, w.vms[id]);
      }
    }
    forall k: (ProjectId, VmId)
      ensures k in a.storage <==> k in b.storage
    {
      var (p, id) := k;
      if id in w.vms && w.vms[id].projectId == p {
        assert SlotOf(a, w.vms[id]) == SlotOf(b, w.vms[id]);
      } else {
        assert (p, id) in a.storage <==> (p, id) in w.storage;
        assert (p, id) in b.storage <==> (p, id) in w.storage;
      }
    }
    SameLookups(a.vms, b.vms);
    SameLookups(a.actions, b.actions);
    SameLookups(a.domains, b.domains);
  }

  lemma SameLookups<K(!new), V>(a: map<K, V>, b: map<K, V>)
    requires forall k :: Lookup(a, k) == Lookup(b, k)
    ensures a == b
  {
    forall k ensures k in a <==> k in b { assert Lookup(a, k) == Lookup(b, k); }
    forall k | k in a ensures a[k] == b[k] { assert Lookup(a, k) == Lookup(b, k); }
  }

  /**
   Two scans of the same state at the same time with the same hypervisor answers, listing the
   rows in any two orders, end with the same rows, actions, call log, domains and storage, and
   emit the same events, notices and host calls up to order.
  */
  lemma ScanOrderIsIrrelevant(w: World, x: seq<VmId>, y: seq<VmId>, cfg: Config, now: Time, reply: Replies)
    requires WellFormed(w) && IsListing(w, x) && IsListing(w, y)
    ensures var a := Scan(w, x, cfg, now, reply); var b := Scan(w, y, cfg, now, reply);
            && a.vms == b.vms && a.actions == b.actions && a.callLog == b.callLog
            && a.domains == b.domains && a.storage == b.storage
            && multiset(a.events) == multiset(b.events)
            && multiset(a.notices) == multiset(b.notices)
            && multiset(a.history) == multiset(b.history)
  {
    var plan := Plan(w, cfg, now, reply);
    ScanVisitsEach(w, x, cfg, now, reply);
    ScanVisitsEach(w, y, cfg, now, reply);
    ScanEmitsEach(w, x, cfg, now, reply);
    ScanEmitsEach(w, y, cfg, now, reply);
    SameWhenVisitedAlike(w, ScanRows(w, x, cfg, now, reply), ScanRows(w, y, cfg, now, reply), x, y, plan);
    ListingsArePermutations(w, x, y);
    FlattenPermuted(x, y, Events(plan));
    FlattenPermuted(x, y, Notices(plan));
    FlattenPermuted(x, y, Entries(plan));
  }

  lemma VisitDropsStorage(slot: Slot, now: Time, recent: nat, cfg: Config, reply: HostReply)
    requires slot.row.Some? && slot.stored
    ensures !Visit(slot, now, recent, cfg, reply).slot.stored <==>
            && slot.row.value.origin.Boxer? && Visit(slot, now, recent, cfg, reply).slot.row.None?
    ensures Visit(slot, now, recent, cfg, reply).slot.row.None? ==>
              slot.row.value.leaseUntil < now - cfg.deleteGrace && slot.row.value.leaseUntil < now
  {
  }

  lemma PlanDropsStorage(w: World, id: VmId, cfg: Config, now: Time, reply: Replies)
    requires WellFormed(w) && id in w.vms && (w.vms[id].projectId, id) in w.storage
    ensures var slot := Plan(w, cfg, now, reply)(id).slot;
            && (!slot.stored <==> w.vms[id].origin.Boxer? && slot.row.None?)
            && (slot.row.None? ==> w.vms[id].leaseUntil < now - cfg.deleteGrace && w.vms[id].leaseUntil < now)
  {
    var row := w.vms[id];
    VisitDropsStorage(SlotOf(w, row), now, CallsSince(w.callLog, row.projectId, now - cfg.activityWindow), cfg,
                      reply(row.libvirtName));
  }

  /**
   A scan removes a VM's storage exactly when it deletes the VM's row and the VM was created
   by Boxer; rows go only once the delete grace after their lease is over.
  */
  lemma ScanDeletesOnlyBoxerStorage(w: World, order: seq<VmId>, cfg: Config, now: Time, reply: Replies, p: ProjectId,
                                    id: VmId)
    requires WellFormed(w) && IsListing(w, order) && (p, id) in w.storage
    ensures var s := Scan(w, order, cfg, now, reply);
            && ((p, id) !in s.storage <==>
                  id in w.vms && w.vms[id].projectId == p && w.vms[id].origin.Boxer? && id !in s.vms)
            && (id in w.vms && w.vms[id].projectId == p && id !in s.vms ==>
                  w.vms[id].leaseUntil < now && w.vms[id].leaseUntil < now - cfg.deleteGrace)
  {
    ScanVisitsEach(w, order, cfg, now, reply);
    var s := ScanRows(w, order, cfg, now, reply);
    if id in w.vms && w.vms[id].projectId == p {
      PlanDropsStorage(w, id, cfg, now, reply);
      assert SlotOf(s, w.vms[id]) == Plan(w, cfg, now, reply)(id).slot;
    } else {
      assert (p, id) in s.storage <==> (p, id) in w.storage;
    }
  }
}
