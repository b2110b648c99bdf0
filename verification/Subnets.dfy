/**
 The subnet a project gets: IPv4 networks as address and prefix length, listed as the ipaddress
 library lists them.  The number derived from the project id is an input.
*/
module Subnets {
  import opened Common

  function Pow2(n: nat): (r: nat)
    ensures r > 0
  {
    if n == 0 then 1 else 2 * Pow2(n - 1)
  }

  datatype Network = Network(address: nat, prefix: nat)

  /** How many addresses a network of this prefix has. */
  function Size(prefix: nat): nat
    requires prefix <= 32
  {
    Pow2(32 - prefix)
  }

  /** What `ip_network` accepts: no address bits beyond the prefix. */
  predicate Aligned(net: Network) {
    net.prefix <= 32 && net.address % Size(net.prefix) == 0 && net.address + Size(net.prefix) <= Pow2(32)
  }

  /** `subnets(new_prefix=prefix)`, in order. */
  function SubnetsOf(base: Network, prefix: nat): seq<Network>
    requires base.prefix <= prefix <= 32
  {
    seq(Pow2(prefix - base.prefix), k requires 0 <= k => Network(base.address + k * Size(prefix), prefix))
  }

  /** `hosts()`: without network and broadcast address, except in networks of one or two addresses. */
  function HostsOf(net: Network): seq<nat>
    requires net.prefix <= 32
  {
    if net.prefix >= 31 then seq(Size(net.prefix), k requires 0 <= k => net.address + k)
    else
      SmallestRange(net.prefix);
      seq(Size(net.prefix) - 2, k requires 0 <= k => net.address + 1 + k)
  }

  lemma SmallestRange(prefix: nat)
    requires prefix <= 30
    ensures Size(prefix) >= 4
  {
    Pow2Grows(2, 32 - prefix);
    assert Pow2(2) == 4;
  }

  lemma {:induction false} Pow2Grows(a: nat, b: nat)
    requires a <= b
    ensures Pow2(a) <= Pow2(b)
  {
    if a < b {
      Pow2Grows(a, b - 1);
    }
  }

  datatype Error = HostBitsSet | BadPrefix | TooFewHosts

  datatype Lease = Lease(subnet: Network, gateway: nat, dhcpStart: nat, dhcpEnd: nat)

  function AllocateSubnet(base: Network, prefix: int, number: int): Result<Lease, Error> {
    if !Aligned(base) then Err(HostBitsSet)
    else if !(base.prefix <= prefix <= 32) then Err(BadPrefix)
    else
      var subnets := SubnetsOf(base, prefix);
      var index := number % Pow2(prefix - base.prefix);
      LeaseOf(subnets[index % |subnets|])
  }

  function LeaseOf(subnet: Network): Result<Lease, Error>
    requires subnet.prefix <= 32
  {
    var hosts := HostsOf(subnet);
    if |hosts| < 2 then Err(TooFewHosts)
    else Ok(Lease(subnet, hosts[0], hosts[1], hosts[|hosts| - 1]))
  }

  // ------------------------------------------------------------------ arithmetic

  lemma {:induction false} Pow2Adds(a: nat, b: nat)
    ensures Pow2(a + b) == Pow2(a) * Pow2(b)
  {
    if a > 0 {
      Pow2Adds(a - 1, b);
      assert Pow2(a + b) == 2 * Pow2(a - 1 + b);
    }
  }

  lemma {:induction false} SizesDivide(base: Network, prefix: nat)
    requires base.prefix <= prefix <= 32
    ensures Size(base.prefix) == Pow2(prefix - base.prefix) * Size(prefix)
  {
    Pow2Adds(prefix - base.prefix, 32 - prefix);
  }

  lemma TimesMonotone(a: nat, b: nat, c: nat)
    requires a <= b
    ensures a * c <= b * c
  {
  }

  lemma FitsBelow(k: nat, count: nat, size: nat)
    requires k < count
    ensures k * size + size <= count * size
  {
    TimesMonotone(k + 1, count, size);
    assert (k + 1) * size == k * size + size;
  }

  lemma MultipleStays(a: nat, k: nat, m: nat, n: nat)
    requires m > 0 && n > 0 && n * m > 0 && a % (n * m) == 0
    ensures (a + k * m) % m == 0
  {
    var q := a / (n * m);
    assert a == (n * m) * q;
    assert (n * m) * q == m * (n * q);
    assert a + k * m == m * (n * q + k);
    MultipleMod(n * q + k, m);
  }

  lemma MultipleMod(q: nat, m: nat)
    requires m > 0
    ensures (m * q) % m == 0
  {
    var d, r := (m * q) / m, (m * q) % m;
    assert m * q == m * d + r;
    assert (q - d) * m == r;
    assert (d - q) * m == -r;
    if q > d {
      TimesMonotone(1, q - d, m);
    } else if q < d {
      TimesMonotone(1, d - q, m);
    }
  }

  // ------------------------------------------------------------------ the allocation

  predicate Within(address: nat, net: Network)
    requires net.prefix <= 32
  {
    net.address <= address < net.address + Size(net.prefix)
  }

  /** An address hosts can use: neither the network's own nor its broadcast address. */
  predicate Usable(address: nat, net: Network)
    requires net.prefix <= 32
  {
    net.address < address < net.address + Size(net.prefix) - 1
  }

  /** The `k`-th subnet of the list lies inside the base and is a network of its own. */
  lemma SubnetInside(base: Network, prefix: nat, k: nat)
    requires Aligned(base) && base.prefix <= prefix <= 32 && k < Pow2(prefix - base.prefix)
    ensures var net := SubnetsOf(base, prefix)[k];
            && Aligned(net) && net.prefix == prefix
            && base.address <= net.address && net.address + Size(prefix) <= base.address + Size(base.prefix)
  {
    SizesDivide(base, prefix);
    var count, size := Pow2(prefix - base.prefix), Size(prefix);
    hide Pow2, Size;
    InsideArithmetic(base.address, k, size, count);
  }

  lemma InsideArithmetic(address: nat, k: nat, size: nat, count: nat)
    requires k < count && size > 0 && count * size > 0 && address % (count * size) == 0
    ensures k * size >= 0 && (address + k * size) % size == 0
    ensures k * size + size <= count * size
  {
    FitsBelow(k, count, size);
    MultipleStays(address, k, size, count);
  }

  /**
   For every aligned base and number: the lease is refused unless the prefix is between the
   base's and 31; the subnet lies inside the base, the DHCP range starts behind the gateway,
   and both are usable host addresses exactly when the prefix is at most 30.
  */
  lemma LeaseIsSound(base: Network, prefix: int, number: int)
    requires Aligned(base)
    ensures var r := AllocateSubnet(base, prefix, number);
            && (r.Ok? <==> base.prefix <= prefix <= 31)
            && (r.Ok? ==>
                  var lease := r.value;
                  && lease.subnet.prefix == prefix && Aligned(lease.subnet)
                  && base.address <= lease.subnet.address
                  && lease.subnet.address + Size(prefix) <= base.address + Size(base.prefix)
                  && lease.gateway < lease.dhcpStart <= lease.dhcpEnd
                  && Within(lease.gateway, lease.subnet) && Within(lease.dhcpEnd, lease.subnet)
                  && (Usable(lease.gateway, lease.subnet) && Usable(lease.dhcpEnd, lease.subnet) <==> prefix <= 30))
  {
    hide Pow2, HostsOf, Aligned, Usable, Within;
    if base.prefix <= prefix <= 32 {
      var index := number % Pow2(prefix - base.prefix);
      Modulo(number, Pow2(prefix - base.prefix));
      SubnetInside(base, prefix, index);
      SubnetLease(SubnetsOf(base, prefix)[index]);
      assert AllocateSubnet(base, prefix, number) == LeaseOf(SubnetsOf(base, prefix)[index]);
    }
  }

  lemma Modulo(x: int, m: nat)
    requires m > 0
    ensures 0 <= x % m < m && (x % m) % m == x % m
  {
  }

  lemma SubnetLease(net: Network)
    requires net.prefix <= 32
    ensures var r := LeaseOf(net);
            && (r.Ok? <==> net.prefix <= 31)
            && (r.Ok? ==>
                  var lease := r.value;
                  && lease.subnet == net
                  && lease.gateway < lease.dhcpStart <= lease.dhcpEnd
                  && Within(lease.gateway, net) && Within(lease.dhcpEnd, net)
                  && (Usable(lease.gateway, net) && Usable(lease.dhcpEnd, net) <==> net.prefix <= 30))
  {
    if net.prefix <= 30 {
      SmallestRange(net.prefix);
    } else if net.prefix == 31 {
      assert Size(31) == 2;
    } else {
      assert Size(32) == 1;
    }
  }

  ghost predicate Disjoint(a: Network, b: Network)
    requires a.prefix <= 32 && b.prefix <= 32
  {
    forall address: nat :: !(Within(address, a) && Within(address, b))
  }

  /**
   Two projects share a subnet exactly when their numbers agree modulo the number of subnets;
   otherwise no address lies in both.
  */
  lemma SameOrDisjoint(base: Network, prefix: nat, m: int, n: int)
    requires Aligned(base) && base.prefix <= prefix <= 31
    ensures AllocateSubnet(base, prefix, m).Ok? && AllocateSubnet(base, prefix, n).Ok?
    ensures var a, b := AllocateSubnet(base, prefix, m).value, AllocateSubnet(base, prefix, n).value;
            && a.subnet.prefix == b.subnet.prefix == prefix
            && (a == b <==> m % Pow2(prefix - base.prefix) == n % Pow2(prefix - base.prefix))
            && (a != b ==> Disjoint(a.subnet, b.subnet))
  {
    hide Pow2, Aligned, HostsOf, Disjoint;
    LeaseIsSound(base, prefix, m);
    LeaseIsSound(base, prefix, n);
    var count := Pow2(prefix - base.prefix);
    var i, j := m % count, n % count;
    Modulo(m, count);
    Modulo(n, count);
    var a, b := SubnetsOf(base, prefix)[i], SubnetsOf(base, prefix)[j];
    assert AllocateSubnet(base, prefix, m) == LeaseOf(a);
    assert AllocateSubnet(base, prefix, n) == LeaseOf(b);
    SubnetLease(a);
    SubnetLease(b);
    if i < j {
      Apart(base, prefix, i, j);
    } else if j < i {
      Apart(base, prefix, j, i);
    }
  }

  lemma Apart(base: Network, prefix: nat, i: nat, j: nat)
    requires base.prefix <= prefix <= 32 && i < j < Pow2(prefix - base.prefix)
    ensures var a, b := SubnetsOf(base, prefix)[i], SubnetsOf(base, prefix)[j];
            a != b && Disjoint(a, b) && Disjoint(b, a)
  {
    FitsBelow(i, j, Size(prefix));
  }

  // ------------------------------------------------------------------ the addresses

  /** Each shorter prefix doubles a network; a full one leaves a single address. */
  lemma SizesDouble(prefix: nat)
    requires prefix <= 32
    ensures Size(32) == 1
    ensures prefix < 32 ==> Size(prefix) == 2 * Size(prefix + 1)
  {
  }

  /** The lease of the `k`-th network of this prefix behind `start`: its first, second and last host. */
  ghost predicate LeasedAt(r: Result<Lease, Error>, start: nat, k: nat, prefix: nat)
    requires prefix <= 31
  {
    var net := start + k * Size(prefix);
    && r.Ok? && r.value.subnet == Network(net, prefix)
    && (prefix <= 30 ==> r.value.gateway == net + 1 && r.value.dhcpStart == net + 2
                         && r.value.dhcpEnd == net + Size(prefix) - 2)
    && (prefix == 31 ==> r.value.gateway == net && r.value.dhcpStart == net + 1 && r.value.dhcpEnd == net + 1)
  }

  /**
   Where a base has room for `count` networks of a prefix, the subnet is the one the number counts
   to, round and round; the gateway is its first host, and the DHCP range goes from the second to
   the last.
  */
  lemma LeaseAddresses(base: Network, prefix: int, number: int, count: nat)
    requires Aligned(base) && base.prefix <= prefix <= 31
    requires count > 0 && count * Size(prefix) == Size(base.prefix)
    ensures LeasedAt(AllocateSubnet(base, prefix, number), base.address, number % count, prefix)
  {
    SizesDivide(base, prefix);
    Cancel(count, Pow2(prefix - base.prefix), Size(prefix));
    Modulo(number, count);
    hide Pow2, HostsOf, Aligned, LeaseOf, LeasedAt;
    var net := SubnetsOf(base, prefix)[number % count];
    assert AllocateSubnet(base, prefix, number) == LeaseOf(net);
    HostsAt(base.address, number % count, net);
  }

  lemma Cancel(a: nat, b: nat, c: nat)
    requires c > 0 && a * c == b * c
    ensures a == b
  {
    assert (a - b) * c == 0;
  }

  lemma HostsAt(start: nat, k: nat, net: Network)
    requires net.prefix <= 31 && net.address == start + k * Size(net.prefix)
    ensures LeasedAt(LeaseOf(net), start, k, net.prefix)
  {
    FirstHosts(net);
    hide LeaseOf, Pow2, Size;
  }

  lemma FirstHosts(net: Network)
    requires net.prefix <= 31
    ensures LeaseOf(net) == Ok(if net.prefix == 31 then Lease(net, net.address, net.address + 1, net.address + 1)
                               else Lease(net, net.address + 1, net.address + 2, net.address + Size(net.prefix) - 2))
  {
    if net.prefix <= 30 {
      SmallestRange(net.prefix);
    } else {
      assert Size(31) == 2;
    }
  }

  /** Why no subnet is leased: host bits in the base, a prefix out of its range, or room for one host only. */
  lemma LeaseErrors(base: Network, prefix: int, number: int)
    requires base.prefix <= 32 && base.address + Size(base.prefix) <= Size(0)
    ensures var r := AllocateSubnet(base, prefix, number);
            && (r == Err(HostBitsSet) <==> base.address % Size(base.prefix) != 0)
            && (r == Err(BadPrefix) <==>
                  base.address % Size(base.prefix) == 0 && (prefix < base.prefix || prefix > 32))
            && (r == Err(TooFewHosts) <==> base.address % Size(base.prefix) == 0 && prefix == 32)
  {
    hide Pow2, HostsOf;
    if Aligned(base) {
      LeaseIsSound(base, prefix, number);
    }
  }
}
