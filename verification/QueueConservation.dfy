/**
 No request is lost or served twice: although the queue runner re-enters the request handler,
 which may queue the request afresh, every accepted request is at any time exactly one VM
 created, one entry waiting, or one entry expired.
*/
module QueueConservation {
  import opened Common
  import opened AdmissionModel
  import opened AdmissionCaps

  function StatusIs(status: Status): Entry -> int { (e: Entry) => if e.status == status then 1 else 0 }

  ghost predicate IdsIncrease(w: World) {
    && (forall i, j :: 0 <= i < j < |w.queue| ==> w.queue[i].id < w.queue[j].id)
    && (forall i :: 0 <= i < |w.queue| ==> w.queue[i].id < w.nextEntry)
  }

  ghost predicate Conserved(w: World) {
    w.accepted == w.created + Weigh(w.queue, StatusIs(Waiting)) + Weigh(w.queue, StatusIs(Expired))
  }

  /** Nothing is in processing, and every id promoted so far was promoted once and settled. */
  ghost predicate Ticked(w: World) {
    && (forall i :: 0 <= i < |w.queue| ==> !w.queue[i].status.Processing?)
    && NoDuplicates(w.promoted)
    && (forall k :: 0 <= k < |w.promoted| ==> w.promoted[k] < w.nextEntry)
    && (forall i :: 0 <= i < |w.queue| && w.queue[i].id in w.promoted ==>
        w.queue[i].status.Done? || w.queue[i].status.Expired?)
  }

  /** What holds between steps. */
  ghost predicate Settled(w: World) {
    IdsIncrease(w) && Conserved(w) && Ticked(w)
  }

  // ------------------------------------------------------------------ lists

  lemma {:induction false} WeighUpdate<T>(s: seq<T>, i: nat, x: T, f: T -> int)
    requires i < |s|
    ensures Weigh(s[i := x], f) == Weigh(s, f) - f(s[i]) + f(x)
  {
    var last := |s| - 1;
    if i == last {
      assert s[i := x][..last] == s[..last];
    } else {
      WeighUpdate(s[..last], i, x, f);
      assert s[i := x][..last] == s[..last][i := x];
    }
  }

  lemma StatusUpdatesOne(w: World, i: nat, status: Status)
    requires IdsIncrease(w) && i < |w.queue|
    ensures SetStatus(w.queue, w.queue[i].id, status) == w.queue[i := w.queue[i].(status := status)]
  {
    StatusKeepsRequests(w.queue, w.queue[i].id, status);
  }

  /** The pending entries are the waiting ones, each once, oldest first. */
  lemma {:induction false} PendingAreWaiting(queue: seq<Entry>)
    requires forall i, j :: 0 <= i < j < |queue| ==> queue[i].id < queue[j].id
    ensures forall e :: e in Pending(queue) <==> e in queue && e.status.Waiting?
    ensures forall k, l :: 0 <= k < l < |Pending(queue)| ==> Pending(queue)[k].id < Pending(queue)[l].id
  {
    if queue == [] {
    } else {
      var before, last := queue[..|queue| - 1], queue[|queue| - 1];
      PendingAreWaiting(before);
      SplitLast(queue);
      var p := Pending(before);
      forall k | 0 <= k < |p| ensures p[k].id < last.id {
        assert p[k] in before;
      }
    }
  }

  // ------------------------------------------------------------------ one promotion

  /** Handling a taken entry: nothing else in the queue changes, and the books still balance. */
  ghost predicate Balanced(w: World, w': World, gained: int) {
    w'.accepted == w.accepted
    && w'.created + Weigh(w'.queue, StatusIs(Waiting)) + Weigh(w'.queue, StatusIs(Expired))
       == w.created + Weigh(w.queue, StatusIs(Waiting)) + Weigh(w.queue, StatusIs(Expired)) + gained
  }

  /** Whatever admission says, a handler does one of three things. */
  lemma HandleShape(w: World, cfg: Config, r: Request, luck: Luck, now: Time)
    ensures var (w', outcome) := Handle(w, cfg, r, luck, now);
            || (outcome.Failed? && w' == w)
            || (outcome.Queued? && w' == Enqueued(w, r, now))
            || (outcome.CreatedVm? && HandlerSizes(r).Some? && w' == WithVm(w, r, HandlerSizes(r).value))
  {
  }

  lemma EnqueueBalances(w: World, r: Request, now: Time)
    requires IdsIncrease(w)
    ensures Balanced(w, Enqueued(w, r, now), 1) && IdsIncrease(Enqueued(w, r, now))
  {
    var e := Entry(w.nextEntry, r, Waiting, now);
    WeighAppend(w.queue, e, StatusIs(Waiting));
    WeighAppend(w.queue, e, StatusIs(Expired));
  }

  lemma HandleBalances(w: World, cfg: Config, r: Request, luck: Luck, now: Time)
    requires IdsIncrease(w)
    ensures var (w', outcome) := Handle(w, cfg, r, luck, now);
            && Balanced(w, w', if outcome.Failed? then 0 else 1)
            && IdsIncrease(w') && w.nextEntry <= w'.nextEntry && w'.promoted == w.promoted
            && (w'.queue == w.queue || w'.queue == w.queue + [Entry(w.nextEntry, r, Waiting, now)])
  {
    hide Handle, Weigh, IdsIncrease;
    HandleShape(w, cfg, r, luck, now);
    EnqueueBalances(w, r, now);
    var (w', outcome) := Handle(w, cfg, r, luck, now);
    if outcome.CreatedVm? {
      CreatingKeepsIds(w, r, HandlerSizes(r).value);
    }
  }

  lemma CreatingKeepsIds(w: World, r: Request, sizes: Sizes)
    requires IdsIncrease(w)
    ensures IdsIncrease(WithVm(w, r, sizes))
  {
  }

  function Counted(status: Status): int {
    if status.Waiting? || status.Expired? then 1 else 0
  }

  lemma SetStatusBalances(w: World, i: nat, status: Status)
    requires IdsIncrease(w) && i < |w.queue|
    ensures var w' := WithStatus(w, w.queue[i].id, status);
            && IdsIncrease(w')
            && w'.queue == w.queue[i := w.queue[i].(status := status)]
            && Balanced(w, w', Counted(status) - Counted(w.queue[i].status))
  {
    StatusUpdatesOne(w, i, status);
    var x := w.queue[i].(status := status);
    WeighUpdate(w.queue, i, x, StatusIs(Waiting));
    WeighUpdate(w.queue, i, x, StatusIs(Expired));
  }

  /** How a promotion changes the queue: entry `i` is settled, at most one fresh entry is added. */
  ghost predicate Promoted(w: World, w': World, i: nat)
    requires i < |w.queue|
  {
    && IdsIncrease(w')
    && w'.promoted == w.promoted + [w.queue[i].id] && w.nextEntry <= w'.nextEntry
    && |w.queue| <= |w'.queue| <= |w.queue| + 1
    && (forall k :: 0 <= k < |w.queue| && k != i ==> w'.queue[k] == w.queue[k])
    && (w'.queue[i].status.Done? || w'.queue[i].status.Expired?) && w'.queue[i].id == w.queue[i].id
    && (|w'.queue| > |w.queue| ==> w'.queue[|w.queue|].status.Waiting? && w'.queue[|w.queue|].id == w.nextEntry)
  }

  lemma FinishPromotes(w: World, taken: World, after: World, i: nat, r: Request, status: Status, now: Time)
    requires IdsIncrease(w) && i < |w.queue| && (status.Done? || status.Expired?)
    requires taken.promoted == w.promoted + [w.queue[i].id] && taken.nextEntry == w.nextEntry
    requires taken.queue == w.queue[i := w.queue[i].(status := Processing)]
    requires IdsIncrease(after) && taken.nextEntry <= after.nextEntry && after.promoted == taken.promoted
    requires after.queue == taken.queue || after.queue == taken.queue + [Entry(taken.nextEntry, r, Waiting, now)]
    ensures Promoted(w, WithStatus(after, w.queue[i].id, status), i)
  {
    assert after.queue[i] == taken.queue[i];
    SetStatusBalances(after, i, status);
  }

  lemma PromoteQueue(w: World, cfg: Config, i: nat, luck: Luck, now: Time)
    requires IdsIncrease(w) && i < |w.queue| && w.queue[i].status.Waiting?
    ensures Promoted(w, Promote(w, cfg, w.queue[i], luck, now), i)
    ensures Balanced(w, Promote(w, cfg, w.queue[i], luck, now), 0)
  {
    hide Handle, WithStatus, Balanced;
    var e := w.queue[i];
    var taken := Taken(w, e.id);
    TakenIs(w, i);
    HandleBalances(taken, cfg, e.request, luck, now);
    var (after, outcome) := Handle(taken, cfg, e.request, luck, now);
    var status := if outcome.Failed? then Expired else Done;
    FinishPromotes(w, taken, after, i, e.request, status, now);
    assert after.queue[i] == taken.queue[i];
    SetStatusBalances(after, i, status);
    BooksAddUp(w, taken, after, Promote(w, cfg, e, luck, now), Counted(status));
  }

  lemma TakenIs(w: World, i: nat)
    requires IdsIncrease(w) && i < |w.queue| && w.queue[i].status.Waiting?
    ensures var taken := Taken(w, w.queue[i].id);
            && IdsIncrease(taken) && Balanced(w, taken, -1)
            && taken.queue == w.queue[i := w.queue[i].(status := Processing)]
            && taken.promoted == w.promoted + [w.queue[i].id] && taken.nextEntry == w.nextEntry
  {
    hide SetStatus;
    SetStatusBalances(w, i, Processing);
  }

  lemma BooksAddUp(w: World, taken: World, after: World, w': World, counted: int)
    requires Balanced(w, taken, -1) && Balanced(taken, after, 1 - counted) && Balanced(after, w', counted)
    ensures Balanced(w, w', 0)
  {
  }

  lemma PromotedTicks(w: World, w': World, i: nat)
    requires IdsIncrease(w) && Ticked(w) && i < |w.queue| && w.queue[i].status.Waiting? && Promoted(w, w', i)
    ensures Ticked(w')
  {
    assert w.queue[i].id !in w.promoted;
    forall k | 0 <= k < |w'.queue|
      ensures !w'.queue[k].status.Processing?
      ensures w'.queue[k].id in w'.promoted ==> w'.queue[k].status.Done? || w'.queue[k].status.Expired?
    {
      if k == |w.queue| {
        assert w.nextEntry !in w'.promoted;
      } else if k != i {
        assert w'.queue[k] == w.queue[k] && w.queue[k].id != w.queue[i].id;
      }
    }
  }

  lemma PromoteSettles(w: World, cfg: Config, i: nat, luck: Luck, now: Time)
    requires Settled(w) && i < |w.queue| && w.queue[i].status.Waiting?
    ensures Settled(Promote(w, cfg, w.queue[i], luck, now))
    ensures forall k :: 0 <= k < |w.queue| && k != i ==> w.queue[k] in Promote(w, cfg, w.queue[i], luck, now).queue
  {
    hide Promote, Ticked;
    PromoteQueue(w, cfg, i, luck, now);
    var w' := Promote(w, cfg, w.queue[i], luck, now);
    PromotedTicks(w, w', i);
    forall k | 0 <= k < |w.queue| && k != i ensures w.queue[k] in w'.queue {
      assert w'.queue[k] == w.queue[k];
    }
  }

  // ------------------------------------------------------------------ one pass

  /** Part of a pass: settled, and only entries that existed when the pass began were promoted. */
  ghost predicate MidPass(w: World, w': World) {
    && Settled(w') && w'.accepted == w.accepted && w.nextEntry <= w'.nextEntry
    && w.promoted <= w'.promoted
    && (forall i :: |w.promoted| <= i < |w'.promoted| ==> w'.promoted[i] < w.nextEntry)
  }

  lemma PromoteMidPass(w: World, mid: World, cfg: Config, i: nat, luck: Luck, now: Time)
    requires MidPass(w, mid) && i < |mid.queue| && mid.queue[i].status.Waiting? && mid.queue[i].id < w.nextEntry
    ensures MidPass(w, Promote(mid, cfg, mid.queue[i], luck, now))
    ensures forall x :: x in mid.queue && x.id != mid.queue[i].id ==>
              x in Promote(mid, cfg, mid.queue[i], luck, now).queue
  {
    hide Promote;
    PromoteSettles(mid, cfg, i, luck, now);
    PromoteQueue(mid, cfg, i, luck, now);
  }

  lemma ConsiderMidPass(w: World, mid: World, cfg: Config, e: Entry, luck: Luck, now: Time)
    requires MidPass(w, mid) && e in mid.queue && e.status.Waiting? && e.id < w.nextEntry
    ensures MidPass(w, Consider(mid, cfg, e, luck, now).w)
    ensures forall x :: x in mid.queue && x.id != e.id ==> x in Consider(mid, cfg, e, luck, now).w.queue
  {
    hide Promote;
    var i :| 0 <= i < |mid.queue| && mid.queue[i] == e;
    PromoteMidPass(w, mid, cfg, i, luck, now);
  }

  /** After the first `k` entries of the snapshot the rest of it still waits. */
  lemma {:induction false} PassSettles(w: World, cfg: Config, entries: seq<Entry>, k: nat, lucks: Lucks, now: Time)
    requires Settled(w) && k <= |entries|
    requires forall i :: 0 <= i < |entries| ==>
               entries[i] in w.queue && entries[i].status.Waiting? && entries[i].id < w.nextEntry
    requires forall i, j :: 0 <= i < j < |entries| ==> entries[i].id < entries[j].id
    ensures MidPass(w, PassOver(w, cfg, entries[..k], lucks, now).w)
    ensures forall i :: k <= i < |entries| ==> entries[i] in PassOver(w, cfg, entries[..k], lucks, now).w.queue
  {
    hide Consider;
    if k == 0 {
      assert entries[..0] == [];
    } else {
      PassSettles(w, cfg, entries, k - 1, lucks, now);
      assert entries[..k][..k - 1] == entries[..k - 1];
      var p := PassOver(w, cfg, entries[..k - 1], lucks, now);
      var e := entries[k - 1];
      if !p.aborted {
        ConsiderMidPass(w, p.w, cfg, e, lucks(e.id), now);
      }
    }
  }

  lemma QueuePassSettles(w: World, cfg: Config, lucks: Lucks, now: Time)
    requires Settled(w)
    ensures var w' := QueuePass(w, cfg, lucks, now);
            && Settled(w') && w'.accepted == w.accepted
            && w.promoted <= w'.promoted
            && (forall i :: |w.promoted| <= i < |w'.promoted| ==> w'.promoted[i] < w.nextEntry)
  {
    var entries := Pending(w.queue);
    PendingAreWaiting(w.queue);
    forall i | 0 <= i < |entries|
      ensures entries[i] in w.queue && entries[i].status.Waiting? && entries[i].id < w.nextEntry {
      assert entries[i] in entries;
    }
    PassSettles(w, cfg, entries, |entries|, lucks, now);
    assert entries[..|entries|] == entries;
  }

  // ------------------------------------------------------------------ runs

  lemma {:induction false} ExpiryBalances(queue: seq<Entry>, cutoff: Time)
    ensures Weigh(ExpireOlder(queue, cutoff), StatusIs(Waiting)) + Weigh(ExpireOlder(queue, cutoff), StatusIs(Expired))
            == Weigh(queue, StatusIs(Waiting)) + Weigh(queue, StatusIs(Expired))
  {
    if queue == [] {
    } else {
      var before, last := queue[..|queue| - 1], queue[|queue| - 1];
      ExpiryBalances(before, cutoff);
      var last' := if last.status.Waiting? && last.createdAt < cutoff then last.(status := Expired) else last;
      WeighAppend(ExpireOlder(before, cutoff), last', StatusIs(Waiting));
      WeighAppend(ExpireOlder(before, cutoff), last', StatusIs(Expired));
    }
  }

  lemma ArrivalTicks(w: World, w': World, r: Request, now: Time)
    requires Ticked(w) && w'.promoted == w.promoted && w.nextEntry <= w'.nextEntry
    requires w'.queue == w.queue || w'.queue == w.queue + [Entry(w.nextEntry, r, Waiting, now)]
    ensures Ticked(w')
  {
    assert w.nextEntry !in w.promoted;
  }

  lemma SubmitSettles(w: World, cfg: Config, r: Request, luck: Luck, now: Time)
    requires Settled(w)
    ensures Settled(SubmitRequest(w, cfg, r, luck, now))
  {
    hide Handle, Ticked, IdsIncrease, Balanced, Conserved;
    HandleBalances(w, cfg, r, luck, now);
    var (after, outcome) := Handle(w, cfg, r, luck, now);
    var w' := SubmitRequest(w, cfg, r, luck, now);
    ArrivalTicks(w, w', r, now);
    ArrivalConserves(w, after, w', if outcome.Failed? then 0 else 1);
  }

  lemma ArrivalConserves(w: World, after: World, w': World, gained: nat)
    requires IdsIncrease(after) && Conserved(w) && Balanced(w, after, gained)
    requires w' == after.(accepted := after.accepted + gained)
    ensures IdsIncrease(w') && Conserved(w')
  {
  }

  lemma {:induction false} ExpiryTicks(w: World, cutoff: Time)
    requires IdsIncrease(w) && Ticked(w)
    ensures var w' := w.(queue := ExpireOlder(w.queue, cutoff)); IdsIncrease(w') && Ticked(w')
  {
    ExpiryKeepsRequests(w.queue, cutoff);
    hide ExpireOlder;
  }

  lemma ExpirySettles(w: World, cutoff: Time)
    requires Settled(w)
    ensures Settled(w.(queue := ExpireOlder(w.queue, cutoff)))
  {
    hide Ticked, IdsIncrease;
    ExpiryTicks(w, cutoff);
    ExpiryBalances(w.queue, cutoff);
  }

  lemma StepSettles(w: World, cfg: Config, step: Step)
    requires Settled(w)
    ensures Settled(Apply(w, cfg, step))
  {
    match step
    case RequestStep(r, luck, now) => SubmitSettles(w, cfg, r, luck, now);
    case PassStep(lucks, now) => QueuePassSettles(w, cfg, lucks, now);
    case ExpireStep(cutoff) => ExpirySettles(w, cutoff);
    case _ =>
  }

  lemma EmptyIsSettled()
    ensures Settled(EMPTY)
  {
    hide IdsIncrease, Conserved, Ticked;
    assert IdsIncrease(EMPTY) by { EmptyQueue(); }
    assert Conserved(EMPTY) by { EmptyQueue(); }
    assert Ticked(EMPTY) by { EmptyTicks(); }
  }

  lemma EmptyQueue()
    ensures IdsIncrease(EMPTY) && Conserved(EMPTY)
  {
  }

  lemma EmptyTicks()
    ensures Ticked(EMPTY)
  {
  }

  lemma {:induction false} RunsSettle(cfg: Config, steps: seq<Step>)
    ensures Settled(Run(EMPTY, cfg, steps))
  {
    hide Apply, Settled;
    EmptyIsSettled();
    if steps == [] {
    } else {
      RunsSettle(cfg, steps[..|steps| - 1]);
      StepSettles(Run(EMPTY, cfg, steps[..|steps| - 1]), cfg, steps[|steps| - 1]);
    }
  }

  /**
   Over every run of requests, queue passes, expiries, stops and deletes, whatever sizes are
   asked for and whatever goes wrong: accepted requests = VMs created + entries waiting +
   entries expired, no entry is left in processing, and no entry is ever promoted twice.
  */
  lemma RequestsAreConserved(cfg: Config, steps: seq<Step>)
    ensures var w := Run(EMPTY, cfg, steps);
            && w.accepted == w.created + Weigh(w.queue, StatusIs(Waiting)) + Weigh(w.queue, StatusIs(Expired))
            && Weigh(w.queue, StatusIs(Processing)) == 0
            && NoDuplicates(w.promoted)
  {
    hide Run;
    RunsSettle(cfg, steps);
    NoneProcessing(Run(EMPTY, cfg, steps).queue);
  }

  lemma {:induction false} NoneProcessing(queue: seq<Entry>)
    requires forall i :: 0 <= i < |queue| ==> !queue[i].status.Processing?
    ensures Weigh(queue, StatusIs(Processing)) == 0
  {
    if queue == [] {
    } else {
      NoneProcessing(queue[..|queue| - 1]);
    }
  }
}
