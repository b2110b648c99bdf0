/**
 How far a queue pass gets, and who waits forever.  The runner compares the sizes as they stand
 in the request, so one that is no number ends the pass, and so does a memory it cannot divide;
 and it has defaults of its own, so it can admit what the handler then queues again, as young
 as new.
*/
module QueueReach {
  import opened Common
  import opened AdmissionModel
  import opened AdmissionCaps
  import opened QueueConservation

  // ------------------------------------------------------------------ sizes the runner cannot compare

  predicate IsNumber(f: Field) {
    f.Absent? || f.Given? || f.Fraction?
  }

  /** The memory is absent or a number, and can be divided by 1024. */
  predicate Divisible(f: Field) {
    IsNumber(f) && !Overflows(RunnerSize(f, 2048))
  }

  /** All three sizes are absent or numbers, and the memory is within float range. */
  predicate Numeric(r: Request) {
    IsNumber(r.cpu) && Divisible(r.ramMb) && IsNumber(r.diskGb)
  }

  function Magnitude(s: Size): real {
    if s.NoNumber? then 0.0 else if Amount(s) >= 0.0 then Amount(s) else -Amount(s)
  }

  /** A host with room for whatever numbers a request holds, and none for installs. */
  function Roomy(r: Request): Config {
    Config(Magnitude(RunnerSize(r.ramMb, 2048)) / 1024.0 + 1.0, Magnitude(RunnerSize(r.cpu, 2)).Floor + 1,
           1, Magnitude(RunnerSize(r.diskGb, 20)).Floor + 1, 0)
  }

  lemma RoomyVerdict(w: World, r: Request)
    requires w.rows == [] && w.domains == []
    ensures RunnerVerdict(w, Roomy(r), ALL_LISTED, r) == if Numeric(r) then Admitted else Raises
  {
    RoundingError(MaxReal(0.0, Roomy(r).usableRam - UsedGib(w, Listed)));
  }

  /** The runner can always decide on a request exactly when it is numeric. */
  lemma RunnerDecidesIff(r: Request)
    ensures (forall w, cfg, answers :: !RunnerVerdict(w, cfg, answers, r).Raises?) <==> Numeric(r)
  {
    RoomyVerdict(EMPTY, r);
  }

  /** No memory size that can be divided, or no vCPU count where the memory asked for always fits. */
  predicate NeverDecided(r: Request) {
    !Divisible(r.ramMb) || (Amount(RunnerSize(r.ramMb, 2048)) <= 0.0 && !IsNumber(r.cpu))
  }

  /** No room at all. */
  const NO_ROOM: Config := Config(0.0, 0, 0, 0, 0)

  lemma FreeIsNotNegative(w: World, cfg: Config, listing: Listing)
    ensures FreeGib(w, cfg, listing) >= 0.0
    ensures cfg == NO_ROOM && w.domains == [] ==> FreeGib(w, cfg, listing) == 0.0
  {
    NothingRoundsToNothing();
  }

  lemma NeverDecidedRaises(w: World, cfg: Config, answers: Answers, r: Request)
    requires NeverDecided(r)
    ensures RunnerVerdict(w, cfg, answers, r).Raises?
  {
    FreeIsNotNegative(w, cfg, answers.ram);
    hide FreeGib, FreeVcpus, Weigh;
  }

  lemma NoRoomDenies(w: World, cfg: Config, answers: Answers, r: Request)
    requires !NeverDecided(r)
    requires FreeGib(w, cfg, answers.ram) == 0.0 && Weigh(w.rows, RunningOf(r.project)) >= cfg.maxRunning
    ensures RunnerVerdict(w, cfg, answers, r).Denied?
  {
    hide FreeGib, FreeVcpus, Weigh;
  }

  lemma NoRoomDecides(w: World, r: Request)
    requires !NeverDecided(r) && w.rows == [] && w.domains == []
    ensures RunnerVerdict(w, NO_ROOM, ALL_LISTED, r).Denied?
  {
    FreeIsNotNegative(w, NO_ROOM, Listed);
    hide FreeGib, NeverDecided, RunnerVerdict;
    NoRoomDenies(w, NO_ROOM, ALL_LISTED, r);
  }

  /** The runner can never decide on a request exactly in these cases. */
  lemma RunnerNeverDecidesIff(r: Request)
    ensures (forall w, cfg, answers :: RunnerVerdict(w, cfg, answers, r).Raises?) <==> NeverDecided(r)
  {
    hide RunnerVerdict, NeverDecided;
    if NeverDecided(r) {
      forall w, cfg, answers ensures RunnerVerdict(w, cfg, answers, r).Raises? {
        NeverDecidedRaises(w, cfg, answers, r);
      }
    } else {
      NoRoomDecides(EMPTY, r);
    }
  }

  // ------------------------------------------------------------------ what a pass reaches

  lemma {:induction false} NumericPassGoesOn(w: World, cfg: Config, entries: seq<Entry>, lucks: Lucks, now: Time)
    requires forall i :: 0 <= i < |entries| ==> Numeric(entries[i].request)
    ensures !PassOver(w, cfg, entries, lucks, now).aborted
  {
    hide Promote, CheckAdmission;
    if entries == [] {
    } else {
      var before, e := entries[..|entries| - 1], entries[|entries| - 1];
      NumericPassGoesOn(w, cfg, before, lucks, now);
      RunnerDecidesIff(e.request);
    }
  }

  lemma {:induction false} AbortedPassStays(w: World, cfg: Config, entries: seq<Entry>, k: nat, lucks: Lucks, now: Time)
    requires k <= |entries| && PassOver(w, cfg, entries[..k], lucks, now).aborted
    ensures PassOver(w, cfg, entries, lucks, now) == PassOver(w, cfg, entries[..k], lucks, now)
    decreases |entries|
  {
    if k == |entries| {
      assert entries[..k] == entries;
    } else {
      assert entries[..|entries| - 1][..k] == entries[..k];
      AbortedPassStays(w, cfg, entries[..|entries| - 1], k, lucks, now);
    }
  }

  /** Whatever the state with these entries pending, a pass considers every one of them. */
  ghost predicate AlwaysReached(entries: seq<Entry>) {
    forall w: World, cfg, lucks, now ::
      Pending(w.queue) == entries ==> !PassOver(w, cfg, entries, lucks, now).aborted
  }

  lemma {:induction false} AllWaitingArePending(queue: seq<Entry>)
    requires forall i :: 0 <= i < |queue| ==> queue[i].status.Waiting?
    ensures Pending(queue) == queue
  {
    if queue == [] {
    } else {
      AllWaitingArePending(queue[..|queue| - 1]);
    }
  }

  /** Every handler call finds its request invalid. */
  function Unlucky(): Lucks {
    (id: EntryId) => Luck(ALL_LISTED, ALL_LISTED, Invalid)
  }

  lemma {:induction false} UnluckyPassCreatesNothing(w: World, cfg: Config, entries: seq<Entry>, now: Time)
    ensures PassOver(w, cfg, entries, Unlucky(), now).w.rows == w.rows
    ensures PassOver(w, cfg, entries, Unlucky(), now).w.domains == w.domains
  {
    if entries == [] {
    } else {
      UnluckyPassCreatesNothing(w, cfg, entries[..|entries| - 1], now);
    }
  }

  /** Up to the first entry that is not numeric a pass on a roomy host goes on, and there it ends. */
  lemma {:induction false} PassEndsAt(w: World, entries: seq<Entry>, k: nat, now: Time)
    requires k < |entries| && !Numeric(entries[k].request) && w.rows == [] && w.domains == []
    requires forall i :: 0 <= i < k ==> Numeric(entries[i].request)
    ensures PassOver(w, Roomy(entries[k].request), entries, Unlucky(), now).aborted
  {
    hide Promote, CheckAdmission, Roomy;
    var cfg := Roomy(entries[k].request);
    NumericPassGoesOn(w, cfg, entries[..k], Unlucky(), now);
    UnluckyPassCreatesNothing(w, cfg, entries[..k], now);
    RoomyVerdict(PassOver(w, cfg, entries[..k], Unlucky(), now).w, entries[k].request);
    assert entries[..k + 1][..k] == entries[..k];
    AbortedPassStays(w, cfg, entries, k + 1, Unlucky(), now);
  }

  /**
   A pass considers every pending entry in every state if and only if all of them are numeric:
   null, text and a memory beyond float range, wherever they stand, can end it before the entries
   behind.
  */
  lemma PassReachesAllIff(entries: seq<Entry>)
    requires forall i :: 0 <= i < |entries| ==> entries[i].status.Waiting?
    ensures AlwaysReached(entries) <==> forall i :: 0 <= i < |entries| ==> Numeric(entries[i].request)
  {
    hide PassOver, Numeric, Roomy;
    if forall i :: 0 <= i < |entries| ==> Numeric(entries[i].request) {
      forall w, cfg, lucks, now ensures !PassOver(w, cfg, entries, lucks, now).aborted {
        NumericPassGoesOn(w, cfg, entries, lucks, now);
      }
    } else {
      var k := 0;
      while Numeric(entries[k].request)
        invariant k < |entries| && forall i :: 0 <= i < k ==> Numeric(entries[i].request)
        invariant exists i :: k <= i < |entries| && !Numeric(entries[i].request)
        decreases |entries| - k
      {
        k := k + 1;
      }
      var w := EMPTY.(queue := entries);
      AllWaitingArePending(entries);
      PassEndsAt(w, entries, k, 0);
    }
  }

  /** While such a request is at the head of the queue, no pass changes anything. */
  lemma NullAtHeadBlocksQueue(w: World, cfg: Config, lucks: Lucks, now: Time)
    requires Pending(w.queue) != [] && NeverDecided(Pending(w.queue)[0].request)
    ensures QueuePass(w, cfg, lucks, now) == w
  {
    hide Promote, CheckAdmission, NeverDecided;
    var entries := Pending(w.queue);
    RunnerNeverDecidesIff(entries[0].request);
    assert entries[..1] == [entries[0]] && entries[..1][..0] == [];
    assert PassOver(w, cfg, [], lucks, now) == PassState(w, false);
    assert PassOver(w, cfg, entries[..1], lucks, now) == PassState(w, true);
    AbortedPassStays(w, cfg, entries, 1, lucks, now);
  }

  // ------------------------------------------------------------------ a memory beyond float range

  /**
   A whole number too large to divide passes `int`; only an installer request that comes while all
   installers are taken is queued with it, and then the runner can never decide on it.
  */
  lemma HugeMemoryIsQueuedIff(w: World, cfg: Config, r: Request, luck: Luck, now: Time)
    requires r.ramMb.Given? && Overflows(Whole(r.ramMb.n)) && HandlerSizes(r).Some? && !luck.provisioning.Invalid?
    ensures !Numeric(r) && NeverDecided(r)
    ensures Handle(w, cfg, r, luck, now)
            == if r.job.Installer? && Weigh(w.rows, InstallingOf()) >= cfg.maxInstalls
               then (Enqueued(w, r, now), Queued(w.nextEntry)) else (w, Failed)
  {
    AdmissionRaisesIff(w, cfg, luck.handlerAnswers, r, HandlerSizes(r).value);
    hide Weigh, FreeGib, FreeVcpus;
  }

  const TEN_TO_100: int :=
    1_00000000000000000000_00000000000000000000_00000000000000000000_00000000000000000000_00000000000000000000

  lemma TenTo400Overflows()
    ensures Overflows(Whole(TEN_TO_100 * TEN_TO_100 * TEN_TO_100 * TEN_TO_100))
  {
  }

  // ------------------------------------------------------------------ promotions that queue again

  /** The handler reads the request and denies it. */
  predicate Refused(w: World, cfg: Config, luck: Luck, r: Request) {
    && !luck.provisioning.Invalid? && HandlerSizes(r).Some?
    && Admission(w, cfg, luck.handlerAnswers, r, HandlerSizes(r).value).Denied?
  }

  /** A promotion queues its request again exactly when the handler refuses it, and then as new as `now`. */
  lemma PromotionRequeuesIff(w: World, cfg: Config, i: nat, luck: Luck, now: Time)
    requires IdsIncrease(w) && i < |w.queue|
    ensures var e := w.queue[i];
            var w' := Promote(w, cfg, e, luck, now);
            && (|w'.queue| == |w.queue| + 1 <==> Refused(w, cfg, luck, e.request))
            && (Refused(w, cfg, luck, e.request) ==>
                  && w'.queue == w.queue[i := e.(status := Done)] + [Entry(w.nextEntry, e.request, Waiting, now)]
                  && w'.rows == w.rows && w'.domains == w.domains && w'.nextEntry == w.nextEntry + 1
                  && w'.created == w.created && w'.promoted == w.promoted + [e.id])
            && (|w'.queue| == |w.queue| || |w'.queue| == |w.queue| + 1)
  {
    hide SetStatus, Admission, Weigh;
    var e := w.queue[i];
    var taken := Taken(w, e.id);
    SetStatusBalances(w, i, Processing);
    SameAdmission(w, taken, cfg, luck.handlerAnswers, e.request);
    HandleBalances(taken, cfg, e.request, luck, now);
    var (after, outcome) := Handle(taken, cfg, e.request, luck, now);
    assert after.queue[i].id == e.id;
    SetStatusBalances(after, i, if outcome.Failed? then Expired else Done);
  }

  lemma SameAdmission(w: World, w': World, cfg: Config, answers: Answers, r: Request)
    requires w'.rows == w.rows && w'.domains == w.domains
    ensures HandlerSizes(r).Some? ==>
              Admission(w', cfg, answers, r, HandlerSizes(r).value)
              == Admission(w, cfg, answers, r, HandlerSizes(r).value)
    ensures RunnerVerdict(w', cfg, answers, r) == RunnerVerdict(w, cfg, answers, r)
  {
  }

  /** Left out or zero, so that the handler takes the template's size, and that is larger than what the runner takes. */
  predicate ReadsMore(f: Field, runnerDefault: int, default: int) {
    || (f.Absent? && default > runnerDefault)
    || ((f == Given(0) || f == Fraction(0.0)) && default > 0)
  }

  predicate HandlerReadsMore(r: Request) {
    ReadsMore(r.cpu, 2, r.defaults.cpu) || ReadsMore(r.ramMb, 2048, r.defaults.ramMb)
    || ReadsMore(r.diskGb, 20, r.defaults.diskGb)
  }

  /** In this state and on these answers, both times, the runner admits what the handler refuses. */
  predicate Disagree(w: World, cfg: Config, answers: Answers, r: Request) {
    && RunnerVerdict(w, cfg, answers, r).Admitted? && HandlerSizes(r).Some?
    && Admission(w, cfg, answers, r, HandlerSizes(r).value).Denied?
  }

  /** The handler does not fail on the memory it reads. */
  predicate HandlerDivides(r: Request) {
    HandlerSizes(r).Some? && !Overflows(Whole(HandlerSizes(r).value.ramMb))
  }

  /** Truncation does not pass a whole number. */
  lemma TruncatedBelow(x: real, bound: int)
    requires x <= bound as real
    ensures Truncated(x) <= bound
  {
    if x < 0.0 {
      assert (-x).Floor >= -bound;
    }
  }

  /** A larger size, of those that can make a difference. */
  lemma LargerIsReadsMore(f: Field, runnerDefault: int, default: int, bound: int)
    requires IsNumber(f) && OrDefault(f, default).Some?
    requires Amount(RunnerSize(f, runnerDefault)) <= bound as real && bound < OrDefault(f, default).value
    ensures ReadsMore(f, runnerDefault, default)
  {
    if f.Fraction? {
      TruncatedBelow(f.x, bound);
    }
    hide Truncated;
  }

  lemma LargerMemoryIsReadsMore(f: Field, default: int, free: real)
    requires IsNumber(f) && OrDefault(f, default).Some? && free >= 0.0
    requires Amount(RunnerSize(f, 2048)) / 1024.0 <= free < OrDefault(f, default).value as real / 1024.0
    ensures ReadsMore(f, 2048, default)
  {
  }

  /** On the same answers the two disagree only if the handler reads more, or all installers are taken. */
  lemma DisagreementHasACause(w: World, cfg: Config, answers: Answers, r: Request)
    requires Disagree(w, cfg, answers, r)
    ensures Numeric(r)
    ensures (r.job.Installer? && Weigh(w.rows, InstallingOf()) >= cfg.maxInstalls)
            || (HandlerDivides(r) && HandlerReadsMore(r))
  {
    hide Weigh, FreeGib, FreeVcpus, ReadsMore, Overflows;
    var sizes, free := HandlerSizes(r).value, FreeGib(w, cfg, answers.ram);
    var vcpus, disk := FreeVcpus(w, cfg, answers.vcpus), cfg.maxDisk - Weigh(w.rows, DiskOf(r.project));
    FreeIsNotNegative(w, cfg, answers.ram);
    if !(r.job.Installer? && Weigh(w.rows, InstallingOf()) >= cfg.maxInstalls) {
      if sizes.ramMb as real / 1024.0 > free {
        LargerMemoryIsReadsMore(r.ramMb, r.defaults.ramMb, free);
      } else if sizes.cpu > vcpus {
        LargerIsReadsMore(r.cpu, 2, r.defaults.cpu, vcpus);
      } else {
        LargerIsReadsMore(r.diskGb, 20, r.defaults.diskGb, disk);
      }
    }
  }

  /** A host with room for exactly what the runner reads in one of the sizes the handler reads larger. */
  function Tight(r: Request): Config {
    var big := Roomy(r);
    if ReadsMore(r.ramMb, 2048, r.defaults.ramMb) then
      big.(usableRam := if r.ramMb.Absent? then 2.0 else 0.0, maxInstalls := 1)
    else if ReadsMore(r.cpu, 2, r.defaults.cpu) then
      big.(maxVcpus := if r.cpu.Absent? then 2 else 0, maxInstalls := 1)
    else
      big.(maxDisk := if r.diskGb.Absent? then 20 else 0, maxInstalls := 1)
  }

  lemma TwoRoundsToTwo()
    ensures Round2(2.0) == 2.0
  {
    assert (2.0 * 100.0).Floor == 200;
  }

  lemma TightDisagrees(w: World, r: Request)
    requires w.rows == [] && w.domains == [] && Numeric(r) && HandlerDivides(r) && HandlerReadsMore(r)
    ensures Disagree(w, Tight(r), ALL_LISTED, r)
  {
    TwoRoundsToTwo();
    NothingRoundsToNothing();
    RoomyVerdict(w, r);
  }

  lemma FullInstallersDisagree(w: World, r: Request)
    requires w.rows == [] && w.domains == [] && Numeric(r) && r.job.Installer?
    ensures Disagree(w, Roomy(r), ALL_LISTED, r)
  {
    RoomyVerdict(w, r);
    hide RunnerVerdict, Roomy;
  }

  /**
   There is a state in which the runner admits what the handler refuses if and only if the request
   is numeric and is for an installer, or leaves out or zeroes a size of which the template has
   more, and then not so much memory that the handler fails.
  */
  lemma DisagreementIff(r: Request)
    ensures (exists w, cfg, answers :: Disagree(w, cfg, answers, r))
            <==> Numeric(r) && (r.job.Installer? || (HandlerDivides(r) && HandlerReadsMore(r)))
  {
    hide Disagree, Numeric, HandlerDivides, HandlerReadsMore;
    if w, cfg, answers :| Disagree(w, cfg, answers, r) {
      DisagreementHasACause(w, cfg, answers, r);
    }
    if Numeric(r) && r.job.Installer? {
      FullInstallersDisagree(EMPTY, r);
    } else if Numeric(r) && HandlerDivides(r) && HandlerReadsMore(r) {
      TightDisagrees(EMPTY, r);
    }
  }

  // ------------------------------------------------------------------ waiting forever

  /** A queue pass, then an expiry of whatever is older than the cutoff. */
  datatype Round = Round(passAt: Time, cutoff: Time, lucks: Lucks)

  function Rounds(w: World, cfg: Config, rounds: seq<Round>): World {
    if rounds == [] then w
    else
      var last := rounds[|rounds| - 1];
      var passed := QueuePass(Rounds(w, cfg, rounds[..|rounds| - 1]), cfg, last.lucks, last.passAt);
      passed.(queue := ExpireOlder(passed.queue, last.cutoff))
  }

  /** The only waiting entry asks for `r`, which the runner admits and the handler refuses. */
  ghost predicate Alone(w: World, r: Request) {
    IdsIncrease(w) && |Pending(w.queue)| == 1 && Pending(w.queue)[0].request == r
  }

  ghost predicate Tossed(w: World, cfg: Config, r: Request, lucks: Lucks) {
    forall id :: RunnerVerdict(w, cfg, lucks(id).runnerAnswers, r).Admitted? && Refused(w, cfg, lucks(id), r)
  }

  lemma {:induction false} OnlyWaiting(queue: seq<Entry>, i: nat)
    requires i < |queue| && forall k :: 0 <= k < |queue| ==> (queue[k].status.Waiting? <==> k == i)
    ensures Pending(queue) == [queue[i]]
  {
    var before := queue[..|queue| - 1];
    if i == |queue| - 1 {
      NoneWaiting(before);
    } else {
      OnlyWaiting(before, i);
    }
  }

  lemma {:induction false} NoneWaiting(queue: seq<Entry>)
    requires forall k :: 0 <= k < |queue| ==> !queue[k].status.Waiting?
    ensures Pending(queue) == []
  {
    if queue == [] {
    } else {
      NoneWaiting(queue[..|queue| - 1]);
    }
  }

  lemma {:induction false} TheOneWaiting(queue: seq<Entry>) returns (i: nat)
    requires |Pending(queue)| == 1
    ensures i < |queue| && Pending(queue) == [queue[i]]
    ensures forall k :: 0 <= k < |queue| ==> (queue[k].status.Waiting? <==> k == i)
  {
    var n := |queue| - 1;
    if queue[n].status.Waiting? {
      i := n;
      NothingPending(queue[..n]);
    } else {
      i := TheOneWaiting(queue[..n]);
    }
  }

  lemma {:induction false} NothingPending(queue: seq<Entry>)
    requires Pending(queue) == []
    ensures forall k :: 0 <= k < |queue| ==> !queue[k].status.Waiting?
  {
    if queue == [] {
    } else {
      NothingPending(queue[..|queue| - 1]);
    }
  }

  lemma {:induction false} NoneOldEnough(queue: seq<Entry>, cutoff: Time)
    requires forall k :: 0 <= k < |queue| && queue[k].status.Waiting? ==> queue[k].createdAt >= cutoff
    ensures ExpireOlder(queue, cutoff) == queue
  {
    if queue == [] {
    } else {
      NoneOldEnough(queue[..|queue| - 1], cutoff);
    }
  }

  /** One pass puts a fresh entry in the place of the old one and changes nothing else that counts. */
  lemma PassTosses(w: World, cfg: Config, r: Request, lucks: Lucks, now: Time)
    requires Alone(w, r) && Tossed(w, cfg, r, lucks)
    ensures var w' := QueuePass(w, cfg, lucks, now);
            && Alone(w', r) && Pending(w'.queue)[0] == Entry(w.nextEntry, r, Waiting, now)
            && w'.rows == w.rows && w'.domains == w.domains && w'.created == w.created
            && |w'.promoted| == |w.promoted| + 1
  {
    hide Promote, QueuePass;
    var i := TheOneWaiting(w.queue);
    var e := w.queue[i];
    PromotionRequeuesIff(w, cfg, i, lucks(e.id), now);
    OnePass(w, cfg, e, lucks, now);
    PromoteKeepsIds(w, cfg, i, lucks(e.id), now);
    hide IdsIncrease, Tossed, Pending;
    Replaced(w.queue, i, e.(status := Done), Entry(w.nextEntry, r, Waiting, now));
  }

  /** Once the one waiting entry is settled, a fresh one is alone. */
  lemma Replaced(queue: seq<Entry>, i: nat, settled: Entry, newest: Entry)
    requires i < |queue| && !settled.status.Waiting? && newest.status.Waiting?
    requires forall k :: 0 <= k < |queue| ==> (queue[k].status.Waiting? <==> k == i)
    ensures Pending(queue[i := settled] + [newest]) == [newest]
  {
    OnlyWaiting(queue[i := settled] + [newest], |queue|);
  }

  lemma PromoteKeepsIds(w: World, cfg: Config, i: nat, luck: Luck, now: Time)
    requires IdsIncrease(w) && i < |w.queue| && w.queue[i].status.Waiting?
    ensures IdsIncrease(Promote(w, cfg, w.queue[i], luck, now))
  {
    hide Promote, Balanced;
    PromoteQueue(w, cfg, i, luck, now);
  }

  lemma OnePass(w: World, cfg: Config, e: Entry, lucks: Lucks, now: Time)
    requires Pending(w.queue) == [e] && RunnerVerdict(w, cfg, lucks(e.id).runnerAnswers, e.request).Admitted?
    ensures QueuePass(w, cfg, lucks, now) == Promote(w, cfg, e, lucks(e.id), now)
  {
    hide Promote, CheckAdmission;
    assert [e][..0] == [];
    assert PassOver(w, cfg, [], lucks, now) == PassState(w, false);
    assert PassOver(w, cfg, [e], lucks, now) == Consider(w, cfg, e, lucks(e.id), now);
  }

  /**
   A request that the runner admits and the handler refuses never expires, however long the run:
   each pass replaces its entry by one as young as the pass, so as long as the expiry's cutoff lies
   before the last pass, one entry is waiting after every round, and no VM is ever created for it.
  */
  lemma {:induction false} RefusedRequestNeverExpires(w: World, cfg: Config, r: Request, rounds: seq<Round>)
    requires Alone(w, r)
    requires forall i :: 0 <= i < |rounds| ==>
               rounds[i].cutoff <= rounds[i].passAt && Tossed(w, cfg, r, rounds[i].lucks)
    ensures var w' := Rounds(w, cfg, rounds);
            && Alone(w', r)
            && (rounds != [] ==> Pending(w'.queue)[0].createdAt == rounds[|rounds| - 1].passAt)
            && w'.rows == w.rows && w'.domains == w.domains && w'.created == w.created
            && |w'.promoted| == |w.promoted| + |rounds|
  {
    hide QueuePass, Pending, Tossed, IdsIncrease;
    if rounds == [] {
    } else {
      var before, last := rounds[..|rounds| - 1], rounds[|rounds| - 1];
      var mid := Rounds(w, cfg, before);
      RefusedRequestNeverExpires(w, cfg, r, before);
      TossedAnywhere(w, mid, cfg, r, last.lucks);
      PassTosses(mid, cfg, r, last.lucks, last.passAt);
      FreshSurvives(QueuePass(mid, cfg, last.lucks, last.passAt), last.cutoff);
    }
  }

  lemma TossedAnywhere(w: World, w': World, cfg: Config, r: Request, lucks: Lucks)
    requires w'.rows == w.rows && w'.domains == w.domains && Tossed(w, cfg, r, lucks)
    ensures Tossed(w', cfg, r, lucks)
  {
    hide RunnerVerdict, Admission, HandlerSizes;
    forall id
      ensures RunnerVerdict(w', cfg, lucks(id).runnerAnswers, r).Admitted? && Refused(w', cfg, lucks(id), r)
    {
      SameAdmission(w, w', cfg, lucks(id).runnerAnswers, r);
      SameAdmission(w, w', cfg, lucks(id).handlerAnswers, r);
    }
  }

  lemma FreshSurvives(w: World, cutoff: Time)
    requires |Pending(w.queue)| == 1 && Pending(w.queue)[0].createdAt >= cutoff
    ensures ExpireOlder(w.queue, cutoff) == w.queue
  {
    var i := TheOneWaiting(w.queue);
    NoneOldEnough(w.queue, cutoff);
  }

  /** A template larger than the host, asked for without sizes: the runner sees its own small defaults. */
  lemma LargeTemplateIsTossed(w: World, p: ProjectId, lucks: Lucks)
    requires w.rows == [] && w.domains == []
    requires forall id :: lucks(id) == Luck(ALL_LISTED, ALL_LISTED, Works)
    ensures Tossed(w, Config(8.0, 4, 4, 80, 1),
                   Request(p, CloudImage, Absent, Absent, Absent, Sizes(2, 16384, 20)), lucks)
  {
    RoundingError(MaxReal(0.0, 8.0 - UsedGib(w, Listed)));
  }

  // ------------------------------------------------------------------ until the head expires

  lemma {:induction false} WaitingArePending(queue: seq<Entry>)
    ensures forall e :: e in queue && e.status.Waiting? <==> e in Pending(queue)
  {
    if queue == [] {
    } else {
      SplitLast(queue);
      WaitingArePending(queue[..|queue| - 1]);
    }
  }

  /** The order in which the database lists them. */
  ghost predicate OldestFirst(entries: seq<Entry>) {
    forall i, j :: 0 <= i < j < |entries| ==> entries[i].createdAt <= entries[j].createdAt
  }

  function YoungEnough(entries: seq<Entry>, cutoff: Time): seq<Entry> {
    if entries == [] then []
    else
      var last := entries[|entries| - 1];
      YoungEnough(entries[..|entries| - 1], cutoff) + if last.createdAt < cutoff then [] else [last]
  }

  /** An expiry leaves pending, in order, exactly what is young enough. */
  lemma {:induction false} PendingAfterExpiry(queue: seq<Entry>, cutoff: Time)
    ensures Pending(ExpireOlder(queue, cutoff)) == YoungEnough(Pending(queue), cutoff)
  {
    if queue == [] {
    } else {
      var before, last := queue[..|queue| - 1], queue[|queue| - 1];
      PendingAfterExpiry(before, cutoff);
      assert ExpireOlder(queue, cutoff)[..|ExpireOlder(before, cutoff)|] == ExpireOlder(before, cutoff);
      if last.status.Waiting? {
        assert (Pending(before) + [last])[..|Pending(before)|] == Pending(before);
      } else {
        assert Pending(queue) == Pending(before);
      }
    }
  }

  /** An expiry changes nothing exactly when no waiting entry is older than the cutoff. */
  lemma ExpiryIsIdleIff(queue: seq<Entry>, cutoff: Time)
    requires Pending(queue) != [] && OldestFirst(Pending(queue))
    ensures ExpireOlder(queue, cutoff) == queue <==> cutoff <= Pending(queue)[0].createdAt
  {
    var head := Pending(queue)[0];
    WaitingArePending(queue);
    assert head in Pending(queue);
    if cutoff <= head.createdAt {
      NoneOldEnough(queue, cutoff);
    } else {
      var k :| 0 <= k < |queue| && queue[k] == head;
      ExpiryKeepsRequests(queue, cutoff);
      assert ExpireOlder(queue, cutoff)[k].status.Expired?;
    }
  }

  lemma {:induction false} BlockedRounds(w: World, cfg: Config, rounds: seq<Round>)
    requires Pending(w.queue) != [] && NeverDecided(Pending(w.queue)[0].request) && OldestFirst(Pending(w.queue))
    requires forall i :: 0 <= i < |rounds| ==> rounds[i].cutoff <= Pending(w.queue)[0].createdAt
    ensures Rounds(w, cfg, rounds) == w
  {
    hide QueuePass, ExpireOlder, Pending, NeverDecided;
    if rounds == [] {
    } else {
      var last := rounds[|rounds| - 1];
      BlockedRounds(w, cfg, rounds[..|rounds| - 1]);
      NullAtHeadBlocksQueue(w, cfg, last.lucks, last.passAt);
      ExpiryIsIdleIff(w.queue, last.cutoff);
    }
  }

  /**
   A request the runner can never decide on, at the head of the queue, leaves the world unchanged
   through every round of pass and expiry exactly until a cutoff passes the time it was queued;
   that expiry takes it out of the queue, and the next pass begins with what is young enough.
  */
  lemma HeadBlocksUntilItExpires(w: World, cfg: Config, rounds: seq<Round>)
    requires Pending(w.queue) != [] && NeverDecided(Pending(w.queue)[0].request) && OldestFirst(Pending(w.queue))
    ensures var head := Pending(w.queue)[0];
            (forall m :: 0 <= m <= |rounds| ==> Rounds(w, cfg, rounds[..m]) == w)
            <==> forall i :: 0 <= i < |rounds| ==> rounds[i].cutoff <= head.createdAt
    ensures var head := Pending(w.queue)[0];
            forall n :: 0 <= n < |rounds| && rounds[n].cutoff > head.createdAt
                        && (forall i :: 0 <= i < n ==> rounds[i].cutoff <= head.createdAt) ==>
                          Pending(Rounds(w, cfg, rounds[..n + 1]).queue)
                          == YoungEnough(Pending(w.queue), rounds[n].cutoff)
  {
    hide QueuePass, ExpireOlder, Pending, NeverDecided, OldestFirst, YoungEnough;
    var head := Pending(w.queue)[0];
    forall n | 0 <= n <= |rounds| && forall i :: 0 <= i < n ==> rounds[i].cutoff <= head.createdAt
      ensures Rounds(w, cfg, rounds[..n]) == w
      ensures n < |rounds| ==> Rounds(w, cfg, rounds[..n + 1]) == w.(queue := ExpireOlder(w.queue, rounds[n].cutoff))
      ensures n < |rounds| ==>
                Pending(Rounds(w, cfg, rounds[..n + 1]).queue) == YoungEnough(Pending(w.queue), rounds[n].cutoff)
    {
      BlockedRounds(w, cfg, rounds[..n]);
      if n < |rounds| {
        NextRound(w, cfg, rounds, n);
        PendingAfterExpiry(w.queue, rounds[n].cutoff);
      }
    }
    if forall m :: 0 <= m <= |rounds| ==> Rounds(w, cfg, rounds[..m]) == w {
      forall i | 0 <= i < |rounds| ensures rounds[i].cutoff <= head.createdAt {
        assert Rounds(w, cfg, rounds[..i]) == w && Rounds(w, cfg, rounds[..i + 1]) == w;
        NextRound(w, cfg, rounds, i);
        ExpiryIsIdleIff(w.queue, rounds[i].cutoff);
      }
    }
  }

  lemma NextRound(w: World, cfg: Config, rounds: seq<Round>, n: nat)
    requires n < |rounds| && Rounds(w, cfg, rounds[..n]) == w
    requires Pending(w.queue) != [] && NeverDecided(Pending(w.queue)[0].request)
    ensures Rounds(w, cfg, rounds[..n + 1]) == w.(queue := ExpireOlder(w.queue, rounds[n].cutoff))
  {
    hide QueuePass, ExpireOlder, Pending, NeverDecided;
    assert rounds[..n + 1][..n] == rounds[..n];
    NullAtHeadBlocksQueue(w, cfg, rounds[n].lucks, rounds[n].passAt);
  }
}
