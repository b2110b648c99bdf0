/** The emulator backend's use of console ports, as it reads and starts processes. */
module EmulatorHost {
  import opened Common
  import opened ConsolePorts

  method AllocateConsolePort(inUse: set<int>, range: Range) returns (r: Option<int>)
    ensures r == Allocated(inUse, range)
    ensures r.Some? ==> InRange(r.value, range) && FreePair(inUse, r.value)
    ensures r.Some? ==> forall q :: InRange(q, range) && q < r.value ==> !FreePair(inUse, q)
    ensures r.None? ==> forall q :: InRange(q, range) ==> !FreePair(inUse, q)
  {
    AllocatesLeastPair(inUse, range);
    var port := if range.lo % 2 == 0 then range.lo else range.lo + 1;
    while port <= range.hi
      invariant LeastFree(inUse, port, range.hi) == Allocated(inUse, range)
    {
      if port !in inUse && port + 1 !in inUse {
        return Some(port);
      }
      port := port + 2;
    }
    return None;
  }

  class Host {
    const range: Range
    var live: seq<Emulator>
    var foreign: set<int>

    ghost function State(): World
      reads this
    {
      World(live, foreign)
    }

    constructor (range: Range)
      ensures this.range == range && State() == Run([], range)
    {
      this.range := range;
      live, foreign := [], {};
    }

    /** Both ports on every emulator's command line. */
    method PortsInUse() returns (ports: set<int>)
      ensures ports == PortsOf(live) + foreign
    {
      ports := foreign;
      for i := 0 to |live|
        invariant ports == PortsOf(live[..i]) + foreign
      {
        assert live[..i + 1][..i] == live[..i];
        ports := ports + {live[i].port, live[i].port + 1};
      }
      assert live[..|live|] == live;
    }

    method Launch(avd: string, spawn: Spawn) returns (port: Option<int>)
      modifies this`live
      ensures State() == Apply(old(State()), ConsolePorts.Launch(avd, spawn), range)
      ensures port.Some? ==> live == old(live) + [Emulator(avd, port.value)]
      ensures port.None? ==> live == old(live)
      ensures old(Inv(live, range)) ==> Inv(live, range)
    {
      ghost var before := State();
      if Inv(before.live, range) {
        LaunchKeepsInv(before, avd, spawn, range);
      }
      if spawn.NoSdk? {
        return None;
      }
      var inUse := PortsInUse();
      port := AllocateConsolePort(inUse, range);
      if port.Some? {
        if spawn.SpawnFails? {
          return None;
        }
        live := live + [Emulator(avd, port.value)];
      }
    }

    /** Starting an emulator that runs does nothing. */
    method Start(avd: string, spawn: Spawn)
      modifies this`live
      ensures State() == if exists e :: e in old(live) && e.avd == avd then old(State())
                         else Apply(old(State()), ConsolePorts.Launch(avd, spawn), range)
    {
      if exists e :: e in live && e.avd == avd {
        return;
      }
      var _ := Launch(avd, spawn);
    }
  }
}
