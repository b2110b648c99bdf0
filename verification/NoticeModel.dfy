/**
 Project notices: queued in the database, handed out a few at a time with whatever a project's
 next calls return.  Concatenating what a project's callers were handed gives exactly the
 notices it was sent, in order, up to those still pending.
*/
module NoticeModel {
  import opened Common

  type ProjectId = string
  type NoteId = nat

  /** A notification row; the table is in creation order. */
  datatype Note = Note(id: NoteId, project: ProjectId, delivered: bool)

  /** What one response handed to the callers of one project. */
  datatype Batch = Batch(project: ProjectId, ids: seq<NoteId>)

  datatype World = World(notes: seq<Note>, batches: seq<Batch>)

  datatype Caller = Caller(project: ProjectId, isAdmin: bool)

  /** How a wrapped handler ends; a dict may already carry notices of its own. */
  datatype HandlerResult = DictResult(existing: seq<NoteId>) | ListResult | IpcError | OtherException

  /** The handler's ending with the notices attached to it. */
  datatype Response = Response(ending: HandlerResult, notices: seq<NoteId>)

  const BATCH_LIMIT := 5

  predicate Tracked(caller: Caller) {
    !caller.isAdmin && "p_" <= caller.project && caller.project != "p_unknown"
  }

  predicate Carries(ending: HandlerResult) {
    ending.DictResult? || ending.IpcError?
  }

  function PendingOf(notes: seq<Note>, p: ProjectId): seq<NoteId> {
    if notes == [] then []
    else
      var last := notes[|notes| - 1];
      PendingOf(notes[..|notes| - 1], p) + if last.project == p && !last.delivered then [last.id] else []
  }

  /** Every notice ever sent to `p`, oldest first. */
  function SentTo(notes: seq<Note>, p: ProjectId): seq<NoteId> {
    if notes == [] then []
    else
      var last := notes[|notes| - 1];
      SentTo(notes[..|notes| - 1], p) + if last.project == p then [last.id] else []
  }

  /** Everything handed to the callers of `p`, in the order it was handed out. */
  function HandedTo(batches: seq<Batch>, p: ProjectId): seq<NoteId> {
    if batches == [] then []
    else
      var last := batches[|batches| - 1];
      HandedTo(batches[..|batches| - 1], p) + if last.project == p then last.ids else []
  }

  function FirstFew(ids: seq<NoteId>): seq<NoteId> {
    if |ids| <= BATCH_LIMIT then ids else ids[..BATCH_LIMIT]
  }

  function Mark(notes: seq<Note>, ids: seq<NoteId>): seq<Note> {
    if notes == [] then []
    else
      var last := notes[|notes| - 1];
      Mark(notes[..|notes| - 1], ids) + [if last.id in ids then last.(delivered := true) else last]
  }

  function Send(w: World, p: ProjectId): World {
    w.(notes := w.notes + [Note(|w.notes|, p, false)])
  }

  function Wrapped(w: World, caller: Caller, ending: HandlerResult): (World, Response) {
    var due := FirstFew(PendingOf(w.notes, caller.project));
    var own := if ending.DictResult? then ending.existing else [];
    if Tracked(caller) && Carries(ending) && due != [] then
      (World(Mark(w.notes, due), w.batches + [Batch(caller.project, due)]), Response(ending, own + due))
    else
      (w, Response(ending, own))
  }

  datatype Step = SendStep(project: ProjectId) | CallStep(caller: Caller, ending: HandlerResult)

  function Apply(w: World, step: Step): World {
    match step
    case SendStep(p) => Send(w, p)
    case CallStep(caller, ending) => Wrapped(w, caller, ending).0
  }

  function Run(steps: seq<Step>): World {
    if steps == [] then World([], []) else Apply(Run(steps[..|steps| - 1]), steps[|steps| - 1])
  }

  // ------------------------------------------------------------------ delivery

  function Minus(s: seq<NoteId>, gone: seq<NoteId>): seq<NoteId> {
    if s == [] then []
    else Minus(s[..|s| - 1], gone) + if s[|s| - 1] in gone then [] else [s[|s| - 1]]
  }

  lemma {:induction false} MarkingKeepsIds(notes: seq<Note>, ids: seq<NoteId>)
    ensures |Mark(notes, ids)| == |notes|
    ensures forall i :: 0 <= i < |notes| ==>
              Mark(notes, ids)[i] == notes[i].(delivered := notes[i].id in ids || notes[i].delivered)
  {
    if notes == [] {
    } else {
      MarkingKeepsIds(notes[..|notes| - 1], ids);
    }
  }

  lemma {:induction false} MarkingRemoves(notes: seq<Note>, ids: seq<NoteId>, p: ProjectId)
    ensures PendingOf(Mark(notes, ids), p) == Minus(PendingOf(notes, p), ids)
  {
    if notes == [] {
    } else {
      var before, last := notes[..|notes| - 1], notes[|notes| - 1];
      MarkingRemoves(before, ids, p);
      assert Mark(notes, ids)[..|Mark(before, ids)|] == Mark(before, ids);
      if last.project == p && !last.delivered {
        assert (PendingOf(before, p) + [last.id])[..|PendingOf(before, p)|] == PendingOf(before, p);
      } else {
        assert PendingOf(notes, p) == PendingOf(before, p);
      }
    }
  }

  lemma {:induction false} MarkingKeepsSent(notes: seq<Note>, ids: seq<NoteId>, p: ProjectId)
    ensures SentTo(Mark(notes, ids), p) == SentTo(notes, p)
  {
    if notes == [] {
    } else {
      var before := notes[..|notes| - 1];
      MarkingKeepsSent(before, ids, p);
      assert Mark(notes, ids)[..|Mark(before, ids)|] == Mark(before, ids);
    }
  }

  lemma {:induction false} MinusDisjoint(s: seq<NoteId>, gone: seq<NoteId>)
    requires forall x :: x in s ==> x !in gone
    ensures Minus(s, gone) == s
  {
    if s == [] {
    } else {
      SplitLast(s);
      MinusDisjoint(s[..|s| - 1], gone);
    }
  }

  lemma {:induction false} MinusPrefix(s: seq<NoteId>, k: nat)
    requires k <= |s| && NoDuplicates(s)
    ensures Minus(s, s[..k]) == s[k..]
  {
    if |s| == k {
      MinusAll(s, s);
      assert s[..k] == s;
    } else {
      var before := s[..|s| - 1];
      MinusPrefix(before, k);
      assert before[..k] == s[..k];
      assert s[|s| - 1] !in s[..k];
      assert s[k..] == before[k..] + [s[|s| - 1]];
    }
  }

  lemma {:induction false} MinusAll(s: seq<NoteId>, gone: seq<NoteId>)
    requires forall i :: 0 <= i < |s| ==> s[i] in gone
    ensures Minus(s, gone) == []
  {
    if s == [] {
    } else {
      MinusAll(s[..|s| - 1], gone);
    }
  }

  ghost predicate Numbered(notes: seq<Note>) {
    forall i :: 0 <= i < |notes| ==> notes[i].id == i
  }

  /** Numbers identify notices: the pending ones of a project are distinct, and no other project's. */
  lemma {:induction false} PendingAreOwn(notes: seq<Note>, p: ProjectId)
    requires Numbered(notes)
    ensures NoDuplicates(PendingOf(notes, p)) && NoDuplicates(SentTo(notes, p))
    ensures forall x :: x in PendingOf(notes, p) ==> x < |notes| && notes[x].project == p
    ensures forall x :: x in SentTo(notes, p) ==> x < |notes| && notes[x].project == p
  {
    if notes == [] {
    } else {
      var before, last := notes[..|notes| - 1], notes[|notes| - 1];
      PendingAreOwn(before, p);
      Appending(PendingOf(before, p), last.id);
      Appending(SentTo(before, p), last.id);
      assert forall x :: 0 <= x < |before| ==> before[x] == notes[x];
    }
  }

  lemma Appending(s: seq<NoteId>, x: NoteId)
    requires NoDuplicates(s) && x !in s
    ensures NoDuplicates(s + [x])
  {
  }

  ghost predicate Accounted(w: World) {
    && Numbered(w.notes)
    && (forall p :: HandedTo(w.batches, p) + PendingOf(w.notes, p) == SentTo(w.notes, p))
    && (forall k :: 0 <= k < |w.batches| ==> 1 <= |w.batches[k].ids| <= BATCH_LIMIT)
  }

  lemma SendAccounts(w: World, to: ProjectId)
    requires Accounted(w)
    ensures Accounted(Send(w, to))
  {
    var w' := Send(w, to);
    assert w'.notes[..|w.notes|] == w.notes;
    forall p ensures HandedTo(w'.batches, p) + PendingOf(w'.notes, p) == SentTo(w'.notes, p) {
      assert HandedTo(w.batches, p) + PendingOf(w.notes, p) == SentTo(w.notes, p);
    }
  }

  /** Marking the oldest pending notices of `q` takes exactly those away, and only from `q`. */
  lemma {:induction false} MarkingTakesTheOldest(notes: seq<Note>, q: ProjectId, k: nat, p: ProjectId)
    requires Numbered(notes) && k <= |PendingOf(notes, q)|
    ensures var marked := Mark(notes, PendingOf(notes, q)[..k]);
            && PendingOf(marked, p) == (if p == q then PendingOf(notes, q)[k..] else PendingOf(notes, p))
            && SentTo(marked, p) == SentTo(notes, p)
  {
    var due := PendingOf(notes, q)[..k];
    MarkingRemoves(notes, due, p);
    MarkingKeepsSent(notes, due, p);
    PendingAreOwn(notes, p);
    PendingAreOwn(notes, q);
    if p == q {
      MinusPrefix(PendingOf(notes, q), k);
    } else {
      forall x | x in PendingOf(notes, p) ensures x !in due {
        assert x in due ==> x in PendingOf(notes, q);
      }
      MinusDisjoint(PendingOf(notes, p), due);
    }
  }

  lemma HandOver(batches: seq<Batch>, batch: Batch, p: ProjectId)
    ensures HandedTo(batches + [batch], p) == HandedTo(batches, p) + if batch.project == p then batch.ids else []
  {
    assert (batches + [batch])[..|batches|] == batches;
  }

  /** A call either changes nothing or hands the oldest pending notices to its own project. */
  lemma CallHandsOver(w: World, caller: Caller, ending: HandlerResult, p: ProjectId)
    requires Numbered(w.notes)
    requires var w' := Wrapped(w, caller, ending).0; w' != w
    ensures var w' := Wrapped(w, caller, ending).0;
            var due := FirstFew(PendingOf(w.notes, caller.project));
            && PendingOf(w'.notes, p)
               == (if p == caller.project then PendingOf(w.notes, p)[|due|..] else PendingOf(w.notes, p))
            && SentTo(w'.notes, p) == SentTo(w.notes, p)
            && HandedTo(w'.batches, p) == HandedTo(w.batches, p) + if caller.project == p then due else []
  {
    var all := PendingOf(w.notes, caller.project);
    var due := FirstFew(all);
    assert due == all[..|due|];
    MarkingTakesTheOldest(w.notes, caller.project, |due|, p);
    HandOver(w.batches, Batch(caller.project, due), p);
  }

  lemma CallKeepsShape(w: World, caller: Caller, ending: HandlerResult)
    requires Numbered(w.notes)
    requires forall k :: 0 <= k < |w.batches| ==> 1 <= |w.batches[k].ids| <= BATCH_LIMIT
    ensures var w' := Wrapped(w, caller, ending).0;
            && Numbered(w'.notes)
            && (forall k :: 0 <= k < |w'.batches| ==> 1 <= |w'.batches[k].ids| <= BATCH_LIMIT)
  {
    var due := FirstFew(PendingOf(w.notes, caller.project));
    MarkingKeepsIds(w.notes, due);
  }

  lemma CallAccounts(w: World, caller: Caller, ending: HandlerResult)
    requires Accounted(w)
    ensures Accounted(Wrapped(w, caller, ending).0)
  {
    hide PendingOf, SentTo, HandedTo, Wrapped;
    var w' := Wrapped(w, caller, ending).0;
    CallKeepsShape(w, caller, ending);
    if w' != w {
      forall p ensures HandedTo(w'.batches, p) + PendingOf(w'.notes, p) == SentTo(w'.notes, p) {
        CallHandsOver(w, caller, ending, p);
        assert HandedTo(w.batches, p) + PendingOf(w.notes, p) == SentTo(w.notes, p);
        var due := FirstFew(PendingOf(w.notes, p));
        assert due + PendingOf(w.notes, p)[|due|..] == PendingOf(w.notes, p);
      }
    }
  }

  lemma {:induction false} RunAccounts(steps: seq<Step>)
    ensures Accounted(Run(steps))
  {
    if steps == [] {
    } else {
      var w, last := Run(steps[..|steps| - 1]), steps[|steps| - 1];
      RunAccounts(steps[..|steps| - 1]);
      match last
      case SendStep(p) => SendAccounts(w, p);
      case CallStep(caller, ending) => CallAccounts(w, caller, ending);
    }
  }

  /**
   Exactly once and in order: after any run, what the callers of a project were handed, batch
   after batch of at most five, followed by what is still pending for it, is the list of all
   notices sent to it, none twice.
  */
  lemma {:induction false} NoticesAreDeliveredOnceInOrder(steps: seq<Step>, p: ProjectId)
    ensures var w := Run(steps);
            && HandedTo(w.batches, p) + PendingOf(w.notes, p) == SentTo(w.notes, p)
            && NoDuplicates(SentTo(w.notes, p))
            && (forall k :: 0 <= k < |w.batches| ==> |w.batches[k].ids| <= 5)
            && (forall x :: x in HandedTo(w.batches, p) ==> x < |w.notes| && w.notes[x].project == p)
  {
    RunAccounts(steps);
    var w := Run(steps);
    PendingAreOwn(w.notes, p);
    forall x | x in HandedTo(w.batches, p) ensures x in SentTo(w.notes, p) {
      assert HandedTo(w.batches, p) + PendingOf(w.notes, p) == SentTo(w.notes, p);
    }
  }

  /**
   A response consumes notices exactly when a dict or an IPC error goes to a caller who is no admin
   and whose project id starts with `p_` and is not the placeholder, while some are pending; then
   it carries the oldest of that project, five at most, after any of its own.
  */
  lemma {:induction false} WhoConsumesNotices(steps: seq<Step>, caller: Caller, ending: HandlerResult)
    ensures var w := Run(steps);
            var (w', response) := Wrapped(w, caller, ending);
            var all := PendingOf(w.notes, caller.project);
            var n := if |all| < 5 then |all| else 5;
            var own := if ending.DictResult? then ending.existing else [];
            var project := |caller.project| >= 2 && caller.project[0] == 'p' && caller.project[1] == '_'
                           && caller.project != "p_unknown";
            && response.ending == ending
            && (w' != w <==> !caller.isAdmin && project && (ending.DictResult? || ending == IpcError) && all != [])
            && (w' == w ==> response.notices == own)
            && (w' != w ==>
                  && response.notices == own + all[..n]
                  && w'.batches == w.batches + [Batch(caller.project, all[..n])]
                  && PendingOf(w'.notes, caller.project) == all[n..])
            && (forall p :: p != caller.project ==> PendingOf(w'.notes, p) == PendingOf(w.notes, p))
  {
    var w := Run(steps);
    var w' := Wrapped(w, caller, ending).0;
    RunAccounts(steps);
    if Tracked(caller) && Carries(ending) && PendingOf(w.notes, caller.project) != [] {
      assert |w'.batches| == |w.batches| + 1;
      var all := PendingOf(w.notes, caller.project);
      assert FirstFew(all) == all[..if |all| < 5 then |all| else 5];
      forall p
        ensures p == caller.project ==>
                  PendingOf(w'.notes, p) == PendingOf(w.notes, p)[|FirstFew(PendingOf(w.notes, p))|..]
        ensures p != caller.project ==> PendingOf(w'.notes, p) == PendingOf(w.notes, p)
      {
        CallHandsOver(w, caller, ending, p);
      }
    }
  }

  /** The pending notices of a project, one by one: those sent to it and not delivered. */
  lemma {:induction false} PendingAreUndelivered(notes: seq<Note>, p: ProjectId, x: NoteId)
    requires Numbered(notes)
    ensures x in PendingOf(notes, p) <==> x < |notes| && notes[x].project == p && !notes[x].delivered
    ensures x in SentTo(notes, p) <==> x < |notes| && notes[x].project == p
  {
    if notes == [] {
    } else {
      PendingAreUndelivered(notes[..|notes| - 1], p, x);
    }
  }

  /** The sends to `p` among the steps. */
  ghost function Sends(steps: seq<Step>, p: ProjectId): set<int> {
    set i | 0 <= i < |steps| && steps[i] == SendStep(p)
  }

  lemma {:induction false} OneMoreSend(steps: seq<Step>, p: ProjectId)
    requires steps != []
    ensures |Sends(steps, p)|
            == |Sends(steps[..|steps| - 1], p)| + if steps[|steps| - 1] == SendStep(p) then 1 else 0
  {
    var n := |steps| - 1;
    assert Sends(steps, p) == Sends(steps[..n], p) + if steps[n] == SendStep(p) then {n} else {};
  }

  lemma StepSends(w: World, step: Step, p: ProjectId)
    requires Numbered(w.notes)
    ensures |SentTo(Apply(w, step).notes, p)| == |SentTo(w.notes, p)| + if step == SendStep(p) then 1 else 0
  {
    match step
    case SendStep(q) => assert Send(w, q).notes[..|w.notes|] == w.notes;
    case CallStep(caller, ending) =>
      if Wrapped(w, caller, ending).0 != w {
        CallHandsOver(w, caller, ending, p);
      }
  }

  /** Over every run a project is sent as many notices as there are sends to it. */
  lemma {:induction false} EverySendIsKept(steps: seq<Step>, p: ProjectId)
    ensures |SentTo(Run(steps).notes, p)| == |Sends(steps, p)|
  {
    if steps == [] {
      assert Sends(steps, p) == {};
    } else {
      EverySendIsKept(steps[..|steps| - 1], p);
      RunAccounts(steps[..|steps| - 1]);
      OneMoreSend(steps, p);
      StepSends(Run(steps[..|steps| - 1]), steps[|steps| - 1], p);
    }
  }
}
