/**
 Console ports of Android emulators: the allocator, and runs of launches and exits on a host
 where other emulators may come and go.
*/
module ConsolePorts {
  import opened Common

  function FirstEven(lo: int): int {
    if lo % 2 == 0 then lo else lo + 1
  }

  predicate FreePair(inUse: set<int>, port: int) {
    port !in inUse && port + 1 !in inUse
  }

  function LeastFree(inUse: set<int>, port: int, hi: int): Option<int>
    decreases hi - port
  {
    if port > hi then None
    else if FreePair(inUse, port) then Some(port)
    else LeastFree(inUse, port + 2, hi)
  }

  datatype Range = Range(lo: int, hi: int)

  predicate InRange(port: int, range: Range) {
    range.lo <= port <= range.hi && port % 2 == 0
  }

  function Allocated(inUse: set<int>, range: Range): Option<int> {
    LeastFree(inUse, FirstEven(range.lo), range.hi)
  }

  lemma {:induction false} LeastFreeIsLeast(inUse: set<int>, port: int, hi: int)
    requires port % 2 == 0
    ensures match LeastFree(inUse, port, hi)
            case Some(p) => port <= p <= hi && p % 2 == 0 && FreePair(inUse, p)
                            && forall q :: port <= q < p && q % 2 == 0 ==> !FreePair(inUse, q)
            case None => forall q :: port <= q <= hi && q % 2 == 0 ==> !FreePair(inUse, q)
    decreases hi - port
  {
    if port <= hi && !FreePair(inUse, port) {
      LeastFreeIsLeast(inUse, port + 2, hi);
      assert forall q :: q % 2 == 0 && port <= q < port + 2 ==> q == port;
    }
  }

  lemma AllocatesLeastPair(inUse: set<int>, range: Range)
    ensures match Allocated(inUse, range)
            case Some(p) => InRange(p, range) && FreePair(inUse, p)
                            && forall q :: InRange(q, range) && q < p ==> !FreePair(inUse, q)
            case None => forall q :: InRange(q, range) ==> !FreePair(inUse, q)
  {
    LeastFreeIsLeast(inUse, FirstEven(range.lo), range.hi);
  }

  /** The least even port of the range such that it and the next are free; none exactly when there is none. */
  lemma AllocatesLeastFree(inUse: set<int>, range: Range, q: int)
    ensures match Allocated(inUse, range)
            case Some(p) => range.lo <= p <= range.hi && p % 2 == 0 && p !in inUse && p + 1 !in inUse
                            && (range.lo <= q < p && q % 2 == 0 ==> q in inUse || q + 1 in inUse)
            case None => range.lo <= q <= range.hi && q % 2 == 0 ==> q in inUse || q + 1 in inUse
  {
    AllocatesLeastPair(inUse, range);
    assert InRange(q, range) && !FreePair(inUse, q) ==> q in inUse || q + 1 in inUse;
  }

  // ------------------------------------------------------------------ runs

  datatype Emulator = Emulator(avd: string, port: int)

  /** `foreign` are the ports on the command lines of emulators not launched here. */
  datatype World = World(live: seq<Emulator>, foreign: set<int>)

  function Pair(e: Emulator): set<int> {
    {e.port, e.port + 1}
  }

  function PortsOf(live: seq<Emulator>): set<int> {
    if live == [] then {} else PortsOf(live[..|live| - 1]) + Pair(live[|live| - 1])
  }

  function Others(live: seq<Emulator>, avd: string): seq<Emulator> {
    if live == [] then []
    else Others(live[..|live| - 1], avd) + if live[|live| - 1].avd == avd then [] else [live[|live| - 1]]
  }

  /** Whether the emulator binary is there, and its process can be spawned. */
  datatype Spawn = NoSdk | SpawnFails | Spawns

  datatype Step = Launch(avd: string, spawn: Spawn) | Stop(avd: string) | Exit(k: nat) | Elsewhere(ports: set<int>)

  function Apply(w: World, step: Step, range: Range): World {
    match step
    case Launch(avd, spawn) =>
      (match Allocated(PortsOf(w.live) + w.foreign, range)
       case None => w
       case Some(port) => if spawn.Spawns? then w.(live := w.live + [Emulator(avd, port)]) else w)
    case Stop(avd) => w.(live := Others(w.live, avd))
    case Exit(k) => if k < |w.live| then w.(live := w.live[..k] + w.live[k + 1..]) else w
    case Elsewhere(ports) => w.(foreign := ports)
  }

  function Run(steps: seq<Step>, range: Range): World {
    if steps == [] then World([], {}) else Apply(Run(steps[..|steps| - 1], range), steps[|steps| - 1], range)
  }

  ghost predicate Inv(live: seq<Emulator>, range: Range) {
    && (forall i :: 0 <= i < |live| ==> InRange(live[i].port, range))
    && (forall i, j :: 0 <= i < j < |live| ==> live[i].port != live[j].port)
  }

  lemma {:induction false} PortsAre(live: seq<Emulator>)
    ensures forall p :: p in PortsOf(live) <==> exists i :: 0 <= i < |live| && p in Pair(live[i])
  {
    if live == [] {
    } else {
      PortsAre(live[..|live| - 1]);
    }
  }

  lemma LaunchKeepsInv(w: World, avd: string, spawn: Spawn, range: Range)
    requires Inv(w.live, range)
    ensures Inv(Apply(w, Launch(avd, spawn), range).live, range)
  {
    var inUse := PortsOf(w.live) + w.foreign;
    AllocatesLeastPair(inUse, range);
    PortsAre(w.live);
    forall i | 0 <= i < |w.live| ensures w.live[i].port in inUse {
      assert w.live[i].port in Pair(w.live[i]);
    }
  }

  /** What is left after some emulators stop are some of those there were. */
  ghost predicate Fewer(a: seq<Emulator>, b: seq<Emulator>) {
    forall e :: e in a ==> e in b
  }

  lemma {:induction false} OthersKeepInv(live: seq<Emulator>, avd: string, range: Range)
    requires Inv(live, range)
    ensures Inv(Others(live, avd), range) && Fewer(Others(live, avd), live)
  {
    if live == [] {
    } else {
      var before, last := live[..|live| - 1], live[|live| - 1];
      OthersKeepInv(before, avd, range);
      SplitLast(live);
      assert forall e :: e in before ==> e.port != last.port;
    }
  }

  lemma ExitKeepsInv(live: seq<Emulator>, k: nat, range: Range)
    requires Inv(live, range) && k < |live|
    ensures Inv(live[..k] + live[k + 1..], range)
  {
  }

  lemma {:induction false} RunKeepsInv(steps: seq<Step>, range: Range)
    ensures Inv(Run(steps, range).live, range)
  {
    if steps == [] {
    } else {
      var w := Run(steps[..|steps| - 1], range);
      RunKeepsInv(steps[..|steps| - 1], range);
      match steps[|steps| - 1]
      case Launch(avd, spawn) => LaunchKeepsInv(w, avd, spawn, range);
      case Stop(avd) => OthersKeepInv(w.live, avd, range);
      case Exit(k) => if k < |w.live| { ExitKeepsInv(w.live, k, range); }
      case Elsewhere(_) =>
    }
  }

  /** After any run no two live emulators share a port, whatever other emulators do. */
  lemma LivePairsAreDisjoint(steps: seq<Step>, range: Range, i: nat, j: nat)
    requires i < j < |Run(steps, range).live|
    ensures var a, b := Run(steps, range).live[i].port, Run(steps, range).live[j].port;
            a + 1 < b || b + 1 < a
  {
    RunKeepsInv(steps, range);
  }

  /** `p` and the next port are in the range, and neither a live emulator nor anyone else holds them. */
  ghost predicate Untaken(w: World, p: int, range: Range) {
    && range.lo <= p <= range.hi && p % 2 == 0 && p !in w.foreign && p + 1 !in w.foreign
    && forall i :: 0 <= i < |w.live| ==> p + 1 < w.live[i].port || w.live[i].port + 1 < p
  }

  /** A launch that can spawn adds one emulator of that name at the end, on an untaken pair; or it adds none. */
  lemma LaunchTakesAFreePair(w: World, avd: string, range: Range)
    ensures var s := Apply(w, Launch(avd, Spawns), range);
            && s.foreign == w.foreign
            && (s != w ==> |s.live| == |w.live| + 1 && s.live[..|w.live|] == w.live
                           && s.live[|w.live|].avd == avd && Untaken(w, s.live[|w.live|].port, range))
    ensures Apply(w, Launch(avd, NoSdk), range) == w && Apply(w, Launch(avd, SpawnFails), range) == w
  {
    AllocatesLeastPair(PortsOf(w.live) + w.foreign, range);
    PortsAre(w.live);
    var s := Apply(w, Launch(avd, Spawns), range);
    if s != w {
      var p := s.live[|w.live|].port;
      forall i | 0 <= i < |w.live| ensures p + 1 < w.live[i].port || w.live[i].port + 1 < p {
        assert w.live[i].port in Pair(w.live[i]) && w.live[i].port + 1 in Pair(w.live[i]);
      }
    }
  }

  /** Killing by name ends every emulator of that name and no other. */
  lemma {:induction false} KillsByName(live: seq<Emulator>, avd: string, e: Emulator)
    ensures multiset(Others(live, avd))[e] == if e.avd == avd then 0 else multiset(live)[e]
  {
    if live == [] {
    } else {
      SplitLast(live);
      KillsByName(live[..|live| - 1], avd, e);
    }
  }

  // ------------------------------------------------------------------ the pigeonhole

  function EvenPorts(port: int, hi: int): set<int>
    decreases hi - port
  {
    if port > hi then {} else {port} + EvenPorts(port + 2, hi)
  }

  function Capacity(range: Range): nat {
    var first := FirstEven(range.lo);
    if first > range.hi then 0 else (range.hi - first) / 2 + 1
  }

  lemma {:induction false} EvenPortsMembers(port: int, hi: int, p: int)
    requires port % 2 == 0
    ensures p in EvenPorts(port, hi) <==> port <= p <= hi && p % 2 == 0
    decreases hi - port
  {
    if port <= hi {
      EvenPortsMembers(port + 2, hi, p);
    }
  }

  lemma {:induction false} EvenPortsCount(port: int, hi: int)
    requires port % 2 == 0
    ensures |EvenPorts(port, hi)| == if port > hi then 0 else (hi - port) / 2 + 1
    decreases hi - port
  {
    if port <= hi {
      EvenPortsCount(port + 2, hi);
      EvenPortsMembers(port + 2, hi, port);
      assert EvenPorts(port, hi) == {port} + EvenPorts(port + 2, hi);
    }
  }

  lemma EvenPortsAre(port: int, hi: int)
    requires port % 2 == 0
    ensures forall p :: p in EvenPorts(port, hi) <==> port <= p <= hi && p % 2 == 0
    ensures |EvenPorts(port, hi)| == if port > hi then 0 else (hi - port) / 2 + 1
  {
    hide EvenPorts;
    forall p ensures p in EvenPorts(port, hi) <==> port <= p <= hi && p % 2 == 0 {
      EvenPortsMembers(port, hi, p);
    }
    EvenPortsCount(port, hi);
  }

  function ConsolesOf(live: seq<Emulator>): set<int> {
    if live == [] then {} else ConsolesOf(live[..|live| - 1]) + {live[|live| - 1].port}
  }

  lemma {:induction false} ConsolesAre(live: seq<Emulator>)
    ensures forall i :: 0 <= i < |live| ==> live[i].port in ConsolesOf(live)
    ensures forall p :: p in ConsolesOf(live) ==> exists i :: 0 <= i < |live| && p == live[i].port
  {
    if live == [] {
    } else {
      ConsolesAre(live[..|live| - 1]);
    }
  }

  lemma {:induction false} ConsolesCount(live: seq<Emulator>, range: Range)
    requires Inv(live, range)
    ensures |ConsolesOf(live)| == |live|
  {
    hide InRange;
    if live == [] {
    } else {
      ConsolesCount(live[..|live| - 1], range);
      ConsolesAre(live[..|live| - 1]);
    }
  }

  lemma SubsetCounts(a: set<int>, b: set<int>)
    requires a <= b
    ensures |a| <= |b|
    ensures |a| == |b| <==> a == b
  {
    assert b == a + (b - a);
    assert |b| == |a| + |b - a|;
  }

  /** A pair of the range is free exactly when no live emulator holds its even port. */
  lemma FreeUnlessHeld(live: seq<Emulator>, range: Range, port: int)
    requires Inv(live, range) && InRange(port, range)
    ensures FreePair(PortsOf(live), port) <==> port !in ConsolesOf(live)
  {
    hide ConsolesOf, PortsOf;
    PortsAre(live);
    ConsolesAre(live);
    if port in ConsolesOf(live) {
      var i :| 0 <= i < |live| && port == live[i].port;
      assert port in Pair(live[i]);
    } else {
      forall i | 0 <= i < |live| ensures port !in Pair(live[i]) && port + 1 !in Pair(live[i]) {
        assert InRange(live[i].port, range);
        assert live[i].port != port;
      }
    }
  }

  ghost predicate OnlyOurs(steps: seq<Step>) {
    forall i :: 0 <= i < |steps| ==> !steps[i].Elsewhere?
  }

  lemma {:induction false} NothingForeign(steps: seq<Step>, range: Range)
    requires OnlyOurs(steps)
    ensures Run(steps, range).foreign == {}
  {
    if steps == [] {
    } else {
      NothingForeign(steps[..|steps| - 1], range);
    }
  }

  lemma EvenPortsOfRange(range: Range)
    ensures forall q :: InRange(q, range) <==> q in EvenPorts(FirstEven(range.lo), range.hi)
    ensures |EvenPorts(FirstEven(range.lo), range.hi)| == Capacity(range)
  {
    EvenPortsAre(FirstEven(range.lo), range.hi);
  }

  lemma HeldAll(live: seq<Emulator>, range: Range)
    requires Inv(live, range)
    ensures |live| <= Capacity(range)
    ensures |live| == Capacity(range) <==> forall q :: InRange(q, range) ==> q in ConsolesOf(live)
  {
    hide Capacity, EvenPorts, FirstEven, ConsolesOf;
    var evens, held := EvenPorts(FirstEven(range.lo), range.hi), ConsolesOf(live);
    EvenPortsOfRange(range);
    ConsolesAre(live);
    ConsolesCount(live, range);
    forall p | p in held ensures p in evens {
      var i :| 0 <= i < |live| && p == live[i].port;
      assert InRange(p, range);
    }
    hide InRange;
    SubsetCounts(held, evens);
    assert held == evens <==> evens <= held;
    if forall q :: InRange(q, range) ==> q in held {
      forall q | q in evens ensures q in held {
        assert InRange(q, range);
      }
    }
  }

  /**
   With no other emulators on the host a launch fails exactly when its process cannot be spawned
   or as many emulators run as the range has even ports, and more never run.
  */
  lemma {:induction false} LaunchFailsOnlyWhenFull(steps: seq<Step>, avd: string, spawn: Spawn, range: Range)
    requires OnlyOurs(steps)
    ensures var w := Run(steps, range);
            && |w.live| <= Capacity(range)
            && (Apply(w, Launch(avd, spawn), range) == w <==> !spawn.Spawns? || |w.live| == Capacity(range))
  {
    var w := Run(steps, range);
    RunKeepsInv(steps, range);
    NothingForeign(steps, range);
    assert PortsOf(w.live) + w.foreign == PortsOf(w.live);
    AllocatesLeastPair(PortsOf(w.live), range);
    HeldAll(w.live, range);
    forall q | InRange(q, range) ensures FreePair(PortsOf(w.live), q) <==> q !in ConsolesOf(w.live) {
      FreeUnlessHeld(w.live, range, q);
    }
  }
}
