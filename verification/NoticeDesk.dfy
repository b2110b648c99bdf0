/** The notification table and the wrapper around every handler, as they update rows. */
module NoticeDesk {
  import opened NoticeModel

  class Desk {
    var notes: seq<Note>
    ghost var batches: seq<Batch>

    ghost function State(): World
      reads this
    {
      World(notes, batches)
    }

    constructor ()
      ensures State() == Run([])
    {
      notes, batches := [], [];
    }

    method AddNotification(p: ProjectId)
      modifies this`notes
      ensures State() == Send(old(State()), p)
    {
      notes := notes + [Note(|notes|, p, false)];
    }

    method ListPending(p: ProjectId, limit: nat) returns (ids: seq<NoteId>)
      ensures var all := PendingOf(notes, p); ids == if |all| <= limit then all else all[..limit]
    {
      ids := [];
      for i := 0 to |notes|
        invariant ids == PendingOf(notes[..i], p)
      {
        assert notes[..i + 1][..i] == notes[..i];
        if notes[i].project == p && !notes[i].delivered {
          ids := ids + [notes[i].id];
        }
      }
      assert notes[..|notes|] == notes;
      if |ids| > limit {
        ids := ids[..limit];
      }
    }

    method MarkDelivered(ids: seq<NoteId>)
      modifies this`notes
      ensures notes == Mark(old(notes), ids)
    {
      var updated: seq<Note> := [];
      for i := 0 to |notes|
        invariant updated == Mark(notes[..i], ids)
      {
        assert notes[..i + 1][..i] == notes[..i];
        updated := updated + [if notes[i].id in ids then notes[i].(delivered := true) else notes[i]];
      }
      assert notes[..|notes|] == notes;
      notes := updated;
    }

    /** Attach notices to the way a handler ended. */
    method WrapResult(caller: Caller, ending: HandlerResult) returns (response: Response)
      modifies this
      ensures (State(), response) == Wrapped(old(State()), caller, ending)
    {
      var own := if ending.DictResult? then ending.existing else [];
      response := Response(ending, own);
      if !Tracked(caller) || ending.ListResult? || ending.OtherException? {
        return;
      }
      var due := ListPending(caller.project, 5);
      if due != [] {
        response := Response(ending, own + due);
        MarkDelivered(due);
        batches := batches + [Batch(caller.project, due)];
      }
    }
  }
}
