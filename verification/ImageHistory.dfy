/**
 The bounded history in the metadata: cut to ten at every update, it is nevertheless always the
 first ten entries of the full most-recently-used list of every digest ever made current.
*/
module ImageHistory {
  import opened Common
  import opened ImageModel

  /** Everything ever made current for one slot, oldest first. */
  function PromotedTo(promotions: seq<Promotion>, slot: Slot): seq<HistoryEntry> {
    if promotions == [] then []
    else
      var p := promotions[|promotions| - 1];
      PromotedTo(promotions[..|promotions| - 1], slot) + if p.slot == slot then [p.entry] else []
  }

  ghost predicate DistinctRefs(h: seq<HistoryEntry>) {
    forall i, j :: 0 <= i < j < |h| ==> h[i].ref != h[j].ref
  }

  ghost predicate LastUse(log: seq<HistoryEntry>, i: int, ref: DigestRef) {
    && 0 <= i < |log| && log[i].ref == ref
    && forall j :: i < j < |log| ==> log[j].ref != ref
  }

  /**
   `h` lists each digest of `log` once, with its last entry, most recently used first: the
   meaning of a most-recently-used list, independent of how one is maintained.
  */
  ghost predicate IsRecencyList(h: seq<HistoryEntry>, log: seq<HistoryEntry>) {
    && DistinctRefs(h)
    && (forall i :: 0 <= i < |log| ==> exists k :: 0 <= k < |h| && h[k].ref == log[i].ref)
    && (forall k :: 0 <= k < |h| ==> exists i :: LastUse(log, i, h[k].ref) && log[i] == h[k])
    && (forall k, l, i, j :: 0 <= k < l < |h| && LastUse(log, i, h[k].ref) && LastUse(log, j, h[l].ref) ==> j < i)
  }

  function Full(log: seq<HistoryEntry>): seq<HistoryEntry> {
    if log == [] then [] else Pushed(Full(log[..|log| - 1]), log[|log| - 1])
  }

  // ------------------------------------------------------------------ filtering one digest out

  lemma {:induction false} WithoutAbsent(h: seq<HistoryEntry>, ref: DigestRef)
    requires forall i :: 0 <= i < |h| ==> h[i].ref != ref
    ensures Without(h, ref) == h
  {
    if h == [] {
    } else {
      WithoutAbsent(h[..|h| - 1], ref);
    }
  }

  lemma {:induction false} WithoutPresent(h: seq<HistoryEntry>, i: nat)
    requires DistinctRefs(h) && i < |h|
    ensures Without(h, h[i].ref) == h[..i] + h[i + 1..]
  {
    var n := |h| - 1;
    var before := h[..n];
    if i == n {
      WithoutAbsent(before, h[n].ref);
    } else {
      WithoutPresent(before, i);
      assert before[..i] == h[..i] && before[i + 1..] + [h[n]] == h[i + 1..];
    }
  }

  function Dropped(h: seq<HistoryEntry>, i: nat): seq<HistoryEntry>
    requires i < |h|
  {
    h[..i] + h[i + 1..]
  }

  lemma CutEqual(a: seq<HistoryEntry>, b: seq<HistoryEntry>)
    requires |a| == |b| || (|a| >= 10 && |b| >= 10)
    requires forall k :: 0 <= k < |a| && k < |b| && k < 10 ==> a[k] == b[k]
    ensures Cut(a) == Cut(b)
  {
  }

  lemma CutFronted(h: seq<HistoryEntry>, e: HistoryEntry)
    ensures Cut([e] + Cut(h)) == Cut([e] + h)
  {
    CutEqual([e] + Cut(h), [e] + h);
  }

  lemma CutDropped(h: seq<HistoryEntry>, e: HistoryEntry, i: nat)
    requires i < |h|
    ensures Cut([e] + Dropped(h, i)) == Cut([e] + if i < |Cut(h)| then Dropped(Cut(h), i) else Cut(h))
  {
    var c := Cut(h);
    var d := if i < |c| then Dropped(c, i) else c;
    assert |c| == |h| || |c| == 10;
    forall k | 0 <= k < |d| && k < |Dropped(h, i)| ensures d[k] == Dropped(h, i)[k] {
      assert Dropped(h, i)[k] == if k < i then h[k] else h[k + 1];
    }
    CutEqual([e] + Dropped(h, i), [e] + d);
  }

  /** Cutting before the update loses nothing that cutting after it would keep. */
  lemma CutCommutes(h: seq<HistoryEntry>, e: HistoryEntry)
    requires DistinctRefs(h)
    ensures Cut(Pushed(Cut(h), e)) == Cut(Pushed(h, e))
  {
    hide Without, Cut, Dropped;
    CutIsPrefix(h);
    if i :| 0 <= i < |h| && h[i].ref == e.ref {
      CutDropped(h, e, i);
      PresentDrops(h, i);
      if i < |Cut(h)| {
        PresentDrops(Cut(h), i);
      } else {
        WithoutAbsent(Cut(h), e.ref);
      }
    } else {
      WithoutAbsent(h, e.ref);
      WithoutAbsent(Cut(h), e.ref);
      CutFronted(h, e);
    }
  }

  lemma CutIsPrefix(h: seq<HistoryEntry>)
    ensures Cut(h) <= h
    ensures DistinctRefs(h) ==> DistinctRefs(Cut(h))
  {
  }

  lemma {:induction false} PresentDrops(h: seq<HistoryEntry>, i: nat)
    requires DistinctRefs(h) && i < |h|
    ensures Without(h, h[i].ref) == Dropped(h, i)
  {
    WithoutPresent(h, i);
  }

  // ------------------------------------------------------------------ the full list's meaning

  lemma LastUseGrows(log: seq<HistoryEntry>, e: HistoryEntry, i: int, ref: DigestRef)
    ensures LastUse(log + [e], i, ref) <==> if ref == e.ref then i == |log| else LastUse(log, i, ref)
  {
    var log' := log + [e];
    assert log'[|log|] == e;
    if ref != e.ref && LastUse(log', i, ref) {
      assert forall j :: i < j < |log| ==> log[j] == log'[j];
    }
  }

  /** Where entry `k` of the updated list was before, `i` being the place of the digest pushed. */
  function Source(k: nat, i: nat): int {
    if k <= i then k - 1 else k
  }

  function Target(k: nat, i: nat): int {
    if k < i then k + 1 else k
  }

  /** `p` is `h` with the digest of `e` moved from place `i`, or from nowhere, to the front. */
  ghost predicate Fronted(h: seq<HistoryEntry>, p: seq<HistoryEntry>, e: HistoryEntry, i: nat) {
    && i <= |h| && |p| == (if i < |h| then |h| else |h| + 1) && p[0] == e
    && (forall k :: 0 < k < |p| ==> 0 <= Source(k, i) < |h| && p[k] == h[Source(k, i)])
    && (forall k :: 0 <= k < |h| && k != i ==> h[k].ref != e.ref && h[k] == p[Target(k, i)])
    && (i < |h| ==> h[i].ref == e.ref)
  }

  lemma FrontedFrom(h: seq<HistoryEntry>, e: HistoryEntry, i: nat)
    requires DistinctRefs(h) && i < |h| && h[i].ref == e.ref
    ensures Fronted(h, [e] + (h[..i] + h[i + 1..]), e, i)
  {
    var p := [e] + (h[..i] + h[i + 1..]);
    forall k | 0 < k < |p| ensures p[k] == h[Source(k, i)] {
    }
    forall k | 0 <= k < |h| && k != i ensures h[k] == p[Target(k, i)] && h[k].ref != e.ref {
    }
  }

  lemma FrontedNew(h: seq<HistoryEntry>, e: HistoryEntry)
    requires forall k :: 0 <= k < |h| ==> h[k].ref != e.ref
    ensures Fronted(h, [e] + h, e, |h|)
  {
    var p := [e] + h;
    forall k | 0 < k < |p| ensures p[k] == h[k - 1] && Source(k, |h|) == k - 1 {
    }
    forall k | 0 <= k < |h| ensures h[k] == p[k + 1] && Target(k, |h|) == k + 1 {
    }
  }

  lemma PushedFronts(h: seq<HistoryEntry>, e: HistoryEntry) returns (i: nat)
    requires DistinctRefs(h)
    ensures Fronted(h, Pushed(h, e), e, i)
  {
    hide Without, Fronted;
    if j :| 0 <= j < |h| && h[j].ref == e.ref {
      i := j;
      WithoutPresent(h, i);
      FrontedFrom(h, e, i);
    } else {
      i := |h|;
      WithoutAbsent(h, e.ref);
      FrontedNew(h, e);
    }
  }

  lemma PushedRefs(h: seq<HistoryEntry>, e: HistoryEntry)
    requires DistinctRefs(h)
    ensures DistinctRefs(Pushed(h, e)) && Pushed(h, e) != [] && Pushed(h, e)[0] == e
    ensures forall k :: 0 < k < |Pushed(h, e)| ==> Pushed(h, e)[k] in h && Pushed(h, e)[k].ref != e.ref
    ensures forall k :: 0 <= k < |h| && h[k].ref != e.ref ==> h[k] in Pushed(h, e)
  {
    var i := PushedFronts(h, e);
    hide Pushed;
    Moved(h, Pushed(h, e), i);
    MovedKeeps(h, Pushed(h, e), i);
  }

  lemma Moved(h: seq<HistoryEntry>, p: seq<HistoryEntry>, i: nat)
    requires DistinctRefs(h) && p != [] && Fronted(h, p, p[0], i)
    ensures DistinctRefs(p)
    ensures forall k :: 0 < k < |p| ==> p[k] in h && p[k].ref != p[0].ref
  {
    forall k | 0 < k < |p| ensures p[k] in h && p[k].ref != p[0].ref {
      assert p[k] == h[Source(k, i)] && Source(k, i) != i;
    }
    forall k, l | 0 < k < l < |p| ensures p[k].ref != p[l].ref {
      assert p[k] == h[Source(k, i)] && p[l] == h[Source(l, i)];
      assert Source(k, i) < Source(l, i);
    }
  }

  lemma MovedKeeps(h: seq<HistoryEntry>, p: seq<HistoryEntry>, i: nat)
    requires p != [] && Fronted(h, p, p[0], i)
    ensures forall k :: 0 <= k < |h| && h[k].ref != p[0].ref ==> h[k] in p
  {
    forall k | 0 <= k < |h| && h[k].ref != p[0].ref ensures h[k] in p {
      assert p[Target(k, i)] == h[k];
    }
  }

  lemma PushedKeepsOrder(h: seq<HistoryEntry>, e: HistoryEntry, k: nat, l: nat) returns (a: nat, b: nat)
    requires DistinctRefs(h) && 0 < k < l < |Pushed(h, e)|
    ensures a < b < |h| && h[a] == Pushed(h, e)[k] && h[b] == Pushed(h, e)[l]
  {
    var i := PushedFronts(h, e);
    hide Pushed;
    a, b := Source(k, i), Source(l, i);
  }

  lemma PushedCoversLog(h: seq<HistoryEntry>, log: seq<HistoryEntry>, e: HistoryEntry, i: nat)
    requires IsRecencyList(h, log) && i <= |log|
    ensures exists k :: 0 <= k < |Pushed(h, e)| && Pushed(h, e)[k].ref == (log + [e])[i].ref
  {
    hide Pushed;
    PushedRefs(h, e);
    if i < |log| && log[i].ref != e.ref {
      var k :| 0 <= k < |h| && h[k].ref == log[i].ref;
      assert h[k] in Pushed(h, e);
    } else {
      assert Pushed(h, e)[0].ref == (log + [e])[i].ref;
    }
  }

  lemma PushedHasLastUse(h: seq<HistoryEntry>, log: seq<HistoryEntry>, e: HistoryEntry, k: nat)
    requires IsRecencyList(h, log) && k < |Pushed(h, e)|
    ensures exists i :: LastUse(log + [e], i, Pushed(h, e)[k].ref) && (log + [e])[i] == Pushed(h, e)[k]
  {
    hide Pushed;
    PushedRefs(h, e);
    if k == 0 {
      LastUseGrows(log, e, |log|, e.ref);
      assert (log + [e])[|log|] == e;
    } else {
      var a :| 0 <= a < |h| && h[a] == Pushed(h, e)[k];
      var i :| LastUse(log, i, h[a].ref) && log[i] == h[a];
      LastUseGrows(log, e, i, h[a].ref);
      assert (log + [e])[i] == h[a];
    }
  }

  lemma PushedIsOrdered(h: seq<HistoryEntry>, log: seq<HistoryEntry>, e: HistoryEntry, k: nat, l: nat, i: int, j: int)
    requires IsRecencyList(h, log) && k < l < |Pushed(h, e)|
    requires LastUse(log + [e], i, Pushed(h, e)[k].ref) && LastUse(log + [e], j, Pushed(h, e)[l].ref)
    ensures j < i
  {
    hide Pushed;
    PushedRefs(h, e);
    LastUseGrows(log, e, i, Pushed(h, e)[k].ref);
    LastUseGrows(log, e, j, Pushed(h, e)[l].ref);
    if k > 0 {
      var a, b := PushedKeepsOrder(h, e, k, l);
    }
  }

  lemma PushedIsRecency(h: seq<HistoryEntry>, log: seq<HistoryEntry>, e: HistoryEntry)
    requires IsRecencyList(h, log)
    ensures IsRecencyList(Pushed(h, e), log + [e])
  {
    hide Pushed;
    var p, log' := Pushed(h, e), log + [e];
    PushedRefs(h, e);
    forall i | 0 <= i < |log'|
      ensures exists k :: 0 <= k < |p| && p[k].ref == log'[i].ref
    {
      PushedCoversLog(h, log, e, i);
    }
    forall k | 0 <= k < |p|
      ensures exists i :: LastUse(log', i, p[k].ref) && log'[i] == p[k]
    {
      PushedHasLastUse(h, log, e, k);
    }
    forall k, l, i, j | 0 <= k < l < |p| && LastUse(log', i, p[k].ref) && LastUse(log', j, p[l].ref)
      ensures j < i
    {
      PushedIsOrdered(h, log, e, k, l, i, j);
    }
  }

  /** Pushing every promotion to the front does maintain the most-recently-used list. */
  lemma {:induction false} FullIsRecencyList(log: seq<HistoryEntry>)
    ensures IsRecencyList(Full(log), log)
  {
    if log == [] {
    } else {
      var before, last := log[..|log| - 1], log[|log| - 1];
      FullIsRecencyList(before);
      PushedIsRecency(Full(before), before, last);
      SplitLast(log);
    }
  }

  // ------------------------------------------------------------------ the stored history

  /** The stored history of every slot is the front of its full list, and its head is the pointer. */
  ghost predicate HistoriesTrue(s: Store) {
    && (forall slot :: StoredHistory(s, slot) == Cut(Full(PromotedTo(s.promotions, slot))))
    && (forall slot :: slot in s.meta ==>
        s.meta[slot].history != [] && s.meta[slot].history[0].ref == s.meta[slot].current)
  }

  lemma PromotedToNext(promotions: seq<Promotion>, p: Promotion, slot: Slot)
    ensures PromotedTo(promotions + [p], slot)
            == PromotedTo(promotions, slot) + if p.slot == slot then [p.entry] else []
  {
    assert (promotions + [p])[..|promotions|] == promotions;
  }

  lemma FullNext(log: seq<HistoryEntry>, e: HistoryEntry)
    ensures Full(log + [e]) == Pushed(Full(log), e)
  {
    assert (log + [e])[..|log|] == log;
  }

  lemma {:induction false} SetCurrentKeepsSlot(s: Store, slot: Slot, policy: Policy, expected: Expected, now: Time,
                                               other: Slot)
    requires StoredHistory(s, other) == Cut(Full(PromotedTo(s.promotions, other)))
    ensures var s' := SetCurrent(s, slot, policy, expected, now);
            StoredHistory(s', other) == Cut(Full(PromotedTo(s'.promotions, other)))
  {
    hide Cut, Full, Pushed, PromotedTo;
    var e := HistoryEntry(expected.ref, now);
    var log := PromotedTo(s.promotions, other);
    PromotedToNext(s.promotions, Promotion(slot, e), other);
    assert log + [] == log;
    if other == slot {
      FullNext(log, e);
      FullIsRecencyList(log);
      CutCommutes(Full(log), e);
    }
  }

  lemma SetCurrentKeepsHistories(s: Store, slot: Slot, policy: Policy, expected: Expected, now: Time)
    requires HistoriesTrue(s)
    ensures HistoriesTrue(SetCurrent(s, slot, policy, expected, now))
  {
    var s' := SetCurrent(s, slot, policy, expected, now);
    forall other ensures StoredHistory(s', other) == Cut(Full(PromotedTo(s'.promotions, other))) {
      SetCurrentKeepsSlot(s, slot, policy, expected, now, other);
    }
  }

  lemma EnsureKeepsHistories(s: Store, hash: Hash, slot: Slot, entry: CatalogEntry, force: bool, up: Upstream)
    requires HistoriesTrue(s)
    ensures HistoriesTrue(Ensure(s, hash, slot, entry, force, up).0)
  {
    var policy := RefreshPolicy(entry);
    var expected := ExpectedDigest(entry, up.manifest);
    var s' := Ensure(s, hash, slot, entry, force, up).0;
    if s' != s {
      var e := if expected.value.Some? then expected.value.value
               else Expected(DigestRef(Sha256, hash(Sha256, up.download.bytes)), false);
      var stored := s.(files := s'.files);
      assert HistoriesTrue(stored);
      SetCurrentKeepsHistories(stored, slot, policy.value, e, up.now);
      assert s' == SetCurrent(stored, slot, policy.value, e, up.now);
    }
  }

  /** An empty cache. */
  ghost predicate Initial(s: Store) {
    s.meta == map[] && s.promotions == []
  }

  lemma {:induction false} RunKeepsHistories(s: Store, hash: Hash, steps: seq<Step>)
    requires HistoriesTrue(s)
    ensures HistoriesTrue(Run(s, hash, steps))
  {
    if steps == [] {
    } else {
      var mid, last := Run(s, hash, steps[..|steps| - 1]), steps[|steps| - 1];
      RunKeepsHistories(s, hash, steps[..|steps| - 1]);
      match last
      case EnsureStep(slot, entry, force, up) => EnsureKeepsHistories(mid, hash, slot, entry, force, up);
      case ProvisionStep(id, slot, entry, up) => EnsureKeepsHistories(mid, hash, slot, entry, false, up);
      case _ =>
    }
  }

  /** `h` is `full`, or its first ten entries. */
  ghost predicate IsFront(h: seq<HistoryEntry>, full: seq<HistoryEntry>) {
    h <= full && (|h| < 10 ==> h == full)
  }

  /**
   After any run from an empty cache, the history stored for a slot has at most ten entries,
   no digest twice, the current digest first, and is the front of a list of every digest ever
   made current for that slot ordered by last use.
  */
  lemma {:induction false} StoredHistoryIsRecent(s: Store, hash: Hash, steps: seq<Step>, slot: Slot)
    requires Initial(s)
    ensures var s' := Run(s, hash, steps);
            var h := StoredHistory(s', slot);
            && |h| <= 10 && DistinctRefs(h)
            && (slot in s'.meta ==> h != [] && h[0].ref == s'.meta[slot].current)
            && exists full :: IsRecencyList(full, PromotedTo(s'.promotions, slot)) && IsFront(h, full)
  {
    hide Run, Full, IsRecencyList;
    var s' := Run(s, hash, steps);
    EmptyIsTrue(s);
    RunKeepsHistories(s, hash, steps);
    var log := PromotedTo(s'.promotions, slot);
    FullIsRecencyList(log);
    RecencyIsDistinct(Full(log), log);
    assert StoredHistory(s', slot) == Cut(Full(log));
  }

  lemma EmptyIsTrue(s: Store)
    requires Initial(s)
    ensures HistoriesTrue(s)
  {
  }

  lemma RecencyIsDistinct(h: seq<HistoryEntry>, log: seq<HistoryEntry>)
    requires IsRecencyList(h, log)
    ensures DistinctRefs(h)
  {
  }
}
