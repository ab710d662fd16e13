/**
 The IP address manager: one mutable list of free intervals per subnet.
 */
module Ipam {
  import opened Common
  import opened AddressPool
  import opened NetworkModels

  datatype IpamError = NoIPsAvailable | UndefinedSubnet | IpRangeOverlap

  /** A Python list of intervals: shared by reference, changed in place. */
  class AddressList {
    var ranges: Pool

    constructor (r: AddressRange)
      ensures ranges == [r]
    {
      ranges := [r];
    }
  }

  // ---- Specification of calculate_pool ----

  /** Addresses excluded from the initial pool: a port inside the discovery range is skipped. */
  function TakenAddresses(s: Subnet, ports: seq<Port>): seq<int> {
    if ports == [] then []
    else if ports[0].ipv4.Some? && !InDiscovery(s, ports[0].ipv4.value)
      then [ports[0].ipv4.value] + TakenAddresses(s, ports[1..])
    else TakenAddresses(s, ports[1..])
  }

  function InitialPool(s: Subnet, ports: seq<Port>): Pool {
    OccupiedAll([Span(s)], TakenAddresses(s, ports))
  }

  // ---- Which addresses that leaves, said without these functions ----

  /** The address lies in the subnet's explicit range, or in its network if it has none. */
  ghost predicate InSpan(s: Subnet, a: int) {
    match s.ipRange
    case Some(range) => range.lo <= a <= range.hi
    case None => s.cidr.lo <= a <= s.cidr.hi
  }

  ghost predicate Discovered(s: Subnet, a: int) {
    s.discovery.Some? && s.discovery.value.lo <= a <= s.discovery.value.hi
  }

  ghost predicate HeldBy(ports: seq<Port>, a: int) {
    exists p | p in ports :: p.ipv4 == Some(a)
  }

  /** Explicit range and discovery range have an address in common. */
  ghost predicate RangesShare(s: Subnet) {
    s.ipRange.Some? && exists a :: InSpan(s, a) && Discovered(s, a)
  }

  /** Some port holds an address that the pool could hand out, but that is
      skipped because it also lies in the discovery range. */
  ghost predicate HiddenPort(s: Subnet, ports: seq<Port>) {
    exists a :: HeldBy(ports, a) && Discovered(s, a) && InSpan(s, a)
  }

  lemma RangesConflictIff(s: Subnet)
    ensures RangesConflict(s) <==> RangesShare(s)
  {
    if RangesConflict(s) {
      var d, r := s.discovery.value, s.ipRange.value;
      var a := if d.lo <= r.lo then r.lo else d.lo;
      assert InSpan(s, a) && Discovered(s, a);
    }
  }

  lemma {:induction false} PortAddressesAre(ports: seq<Port>)
    ensures forall a :: a in PortAddresses(ports) <==> HeldBy(ports, a)
  {
    if ports != [] {
      PortAddressesAre(ports[1..]);
      forall a
        ensures HeldBy(ports, a) <==> ports[0].ipv4 == Some(a) || HeldBy(ports[1..], a)
      {
      }
    }
  }

  lemma {:induction false} TakenAddressesAre(s: Subnet, ports: seq<Port>)
    ensures forall a :: a in TakenAddresses(s, ports) <==> a in PortAddresses(ports) && !InDiscovery(s, a)
  {
    if ports != [] {
      TakenAddressesAre(s, ports[1..]);
    }
  }

  lemma SpanAddresses(s: Subnet)
    ensures Normal([Span(s)])
    ensures Addresses([Span(s)]) == Interval(Span(s))
  {
    var p: Pool := [Span(s)];
    assert p[1..] == [];
    assert Addresses(p[1..]) == {};
  }

  /** The initial pool is in normal form. It offers exactly the addresses of the explicit
      range, or of the network, but for those held by a port outside the discovery range;
      so all held addresses are left out unless and only unless some port is hidden. */
  lemma InitialPoolMeaning(s: Subnet, ports: seq<Port>)
    ensures Normal(InitialPool(s, ports))
    ensures forall a :: a in Addresses(InitialPool(s, ports)) <==> InSpan(s, a) && !(HeldBy(ports, a) && !Discovered(s, a))
    ensures (forall a :: a in Addresses(InitialPool(s, ports)) <==> InSpan(s, a) && !HeldBy(ports, a)) <==> !HiddenPort(s, ports)
  {
    SpanAddresses(s);
    OccupiedAllMeaning([Span(s)], TakenAddresses(s, ports));
    TakenAddressesAre(s, ports);
    PortAddressesAre(ports);
    forall a
      ensures a in Addresses(InitialPool(s, ports)) <==> InSpan(s, a) && !(HeldBy(ports, a) && !Discovered(s, a))
    {
    }
    if a :| HeldBy(ports, a) && Discovered(s, a) && InSpan(s, a) {
      assert a in Addresses(InitialPool(s, ports));
    }
  }

  /** With an explicit range that passes the overlap check, or with no discovery
      range at all, no port is hidden. */
  lemma ExplicitRangeHidesNothing(s: Subnet, ports: seq<Port>)
    requires !RangesConflict(s)
    requires s.ipRange.Some? || s.discovery.None?
    ensures !HiddenPort(s, ports)
  {
    RangesConflictIff(s);
  }

  /** A discovery range inside the network without an explicit range passes the overlap
      check, and then the address of a discovered port is handed out again. */
  lemma DiscoveryWithoutRangeHidesPort()
    ensures var s := Subnet(1, Range(0, 255), None, Some(Range(0, 9)), None, true);
            var port := Port(7, 1, Some(0), None, None, Active);
            !RangesConflict(s) && InitialPool(s, [port]) != [] && InitialPool(s, [port])[0].lo == 0
  {
    var s := Subnet(1, Range(0, 255), None, Some(Range(0, 9)), None, true);
    var port := Port(7, 1, Some(0), None, None, Active);
    assert TakenAddresses(s, [port]) == TakenAddresses(s, [port][1..]) == [];
  }

  /** The pool does not depend on the order or duplication of the ports. */
  lemma InitialPoolOrderIrrelevant(s: Subnet, a: seq<Port>, b: seq<Port>)
    requires Elements(PortAddresses(a)) == Elements(PortAddresses(b))
    ensures InitialPool(s, a) == InitialPool(s, b)
  {
    TakenAddressesAre(s, a);
    TakenAddressesAre(s, b);
    forall x
      ensures x in PortAddresses(a) <==> x in PortAddresses(b)
    {
      assert x in PortAddresses(a) <==> x in Elements(PortAddresses(a));
      assert x in PortAddresses(b) <==> x in Elements(PortAddresses(b));
    }
    assert Elements(TakenAddresses(s, a)) == Elements(TakenAddresses(s, b)) by {
      forall x
        ensures x in Elements(TakenAddresses(s, a)) <==> x in Elements(TakenAddresses(s, b))
      {
      }
    }
    SpanAddresses(s);
    OccupiedAllOrderIrrelevant([Span(s)], TakenAddresses(s, a), TakenAddresses(s, b));
  }

  /** The pools of a fresh IPAM. */
  function InitialPools(subnets: seq<Subnet>, ports: map<Uuid, seq<Port>>): (r: Pools)
    requires forall s | s in subnets :: s.uuid in ports
    ensures forall s | s in subnets :: s.uuid in r
  {
    if subnets == [] then map[]
    else
      var s := subnets[|subnets| - 1];
      InitialPools(subnets[..|subnets| - 1], ports)[s.uuid := InitialPool(s, ports[s.uuid])]
  }

  ghost predicate DistinctSubnets(subnets: seq<Subnet>) {
    forall i, j | 0 <= i < j < |subnets| :: subnets[i].uuid != subnets[j].uuid
  }

  lemma {:induction false} InitialPoolsAre(subnets: seq<Subnet>, ports: map<Uuid, seq<Port>>)
    requires forall s | s in subnets :: s.uuid in ports
    requires DistinctSubnets(subnets)
    ensures forall u :: u in InitialPools(subnets, ports) <==> exists s :: s in subnets && s.uuid == u
    ensures forall s | s in subnets :: InitialPools(subnets, ports)[s.uuid] == InitialPool(s, ports[s.uuid])
  {
    if subnets != [] {
      var k := |subnets| - 1;
      InitialPoolsAre(subnets[..k], ports);
      assert subnets == subnets[..k] + [subnets[k]];
    }
  }

  // ---- Specification of the operations on all pools ----

  type Pools = map<Uuid, Pool>

  function Allocated(pools: Pools, subnet: Uuid, target: Option<int>): (r: (Result<int, IpamError>, Pools))
  {
    if subnet !in pools then (Err(UndefinedSubnet), pools)
    else
      var p := pools[subnet];
      if p == [] then (Err(NoIPsAvailable), pools)
      else if target.Some? then (Ok(target.value), pools[subnet := Occupied(p, target.value)])
      else (Ok(p[0].lo), pools[subnet := FirstTaken(p)])
  }

  function Deallocated(pools: Pools, subnet: Uuid, a: int): Pools {
    if subnet in pools then pools[subnet := Freed(pools[subnet], a)] else pools
  }

  class Ipam {
    var poolMap: map<Uuid, AddressList>

    /** No two subnets share a list. */
    ghost predicate Valid()
      reads this
    {
      forall s, t | s in poolMap && t in poolMap && s != t :: poolMap[s] != poolMap[t]
    }

    ghost function Lists(): set<AddressList>
      reads this
    {
      poolMap.Values
    }

    ghost function View(): Pools
      reads this, Lists()
    {
      map s | s in poolMap :: poolMap[s].ranges
    }

    constructor ()
      ensures Valid() && View() == map[] && Lists() == {}
    {
      poolMap := map[];
    }

    method AddSubnet(subnet: Subnet, ports: seq<Port>) returns (r: Result<(), IpamError>)
      requires Valid()
      modifies this
      ensures Valid()
      ensures fresh(Lists() - old(Lists()))
      ensures r == if RangesShare(subnet) then Err(IpRangeOverlap) else Ok(())
      ensures View() == if r.Ok? then old(View())[subnet.uuid := InitialPool(subnet, ports)] else old(View())
    {
      var pool;
      r, pool := CalculatePool(subnet, ports);
      if r.Ok? {
        poolMap := poolMap[subnet.uuid := pool];
      }
    }

    /** The loop of `__init__`. */
    method AddSubnets(subnets: seq<Subnet>, ports: map<Uuid, seq<Port>>) returns (r: Result<(), IpamError>)
      requires Valid() && View() == map[]
      requires forall s | s in subnets :: s.uuid in ports
      modifies this
      ensures Valid()
      ensures fresh(Lists() - old(Lists()))
      ensures r.Ok? <==> forall s | s in subnets :: !RangesShare(s)
      ensures r.Ok? ==> View() == InitialPools(subnets, ports)
      ensures r.Err? ==> r.error == IpRangeOverlap
    {
      for i := 0 to |subnets|
        invariant Valid() && fresh(Lists() - old(Lists()))
        invariant forall s | s in subnets[..i] :: !RangesShare(s)
        invariant View() == InitialPools(subnets[..i], ports)
      {
        assert subnets[..i + 1][..i] == subnets[..i];
        r := AddSubnet(subnets[i], ports[subnets[i].uuid]);
        if r.Err? {
          return;
        }
      }
      assert subnets[..|subnets|] == subnets;
      return Ok(());
    }

    static method CalculatePool(subnet: Subnet, ports: seq<Port>) returns (r: Result<(), IpamError>, pool: AddressList)
      ensures fresh(pool)
      ensures r == if RangesShare(subnet) then Err(IpRangeOverlap) else Ok(())
      ensures r.Ok? ==> pool.ranges == InitialPool(subnet, ports)
    {
      pool := new AddressList(Span(subnet));
      RangesConflictIff(subnet);
      if RangesConflict(subnet) {
        return Err(IpRangeOverlap), pool;
      }
      for i := 0 to |ports|
        invariant fresh(pool)
        invariant OccupiedAll(pool.ranges, TakenAddresses(subnet, ports[i..])) == InitialPool(subnet, ports)
      {
        assert ports[i..][1..] == ports[i + 1..];
        if ports[i].ipv4.Some? {
          if InDiscovery(subnet, ports[i].ipv4.value) {
            continue;
          }
          OccupyIp(ports[i].ipv4.value, pool);
        }
      }
      return Ok(()), pool;
    }

    static method OccupyIp(address: int, pool: AddressList)
      modifies pool
      ensures pool.ranges == Occupied(old(pool.ranges), address)
    {
      ghost var p, goal := pool.ranges, Occupied(pool.ranges, address);
      for i := 0 to |pool.ranges|
        invariant pool.ranges == p
        invariant goal == p[..i] + Occupied(p[i..], address)
      {
        OccupiedStep(p, i, address);
        var s, e := pool.ranges[i].lo, pool.ranges[i].hi;
        if s == e && s == address {
          pool.ranges := pool.ranges[..i] + pool.ranges[i + 1..];
          return;
        } else if address == s {
          pool.ranges := pool.ranges[i := Range(s + 1, e)];
          return;
        } else if address == e {
          pool.ranges := pool.ranges[i := Range(s, e - 1)];
          return;
        } else if s < address < e {
          pool.ranges := pool.ranges[i := Range(s, address - 1)];
          pool.ranges := pool.ranges[..i + 1] + [Range(address + 1, e)] + pool.ranges[i + 1..];
          assert pool.ranges == goal;
          return;
        }
      }
    }

    method AllocateIp(subnet: Uuid, target: Option<int>) returns (r: Result<int, IpamError>)
      requires Valid()
      modifies Lists()
      ensures Valid() && poolMap == old(poolMap)
      ensures (r, View()) == Allocated(old(View()), subnet, target)
    {
      if subnet !in poolMap {
        return Err(UndefinedSubnet);
      }
      var pool := poolMap[subnet];
      ghost var p := pool.ranges;
      if |pool.ranges| == 0 {
        return Err(NoIPsAvailable);
      }
      if target.Some? {
        OccupyIp(target.value, pool);
        assert View() == old(View())[subnet := pool.ranges];
        return Ok(target.value);
      }
      var first := pool.ranges[0];
      if first.lo == first.hi {
        pool.ranges := pool.ranges[1..];
      } else {
        pool.ranges := pool.ranges[0 := Range(first.lo + 1, first.hi)];
      }
      assert pool.ranges == FirstTaken(p);
      assert View() == old(View())[subnet := pool.ranges];
      return Ok(first.lo);
    }

    method DeallocateIp(subnet: Uuid, address: int) returns (r: Result<(), IpamError>)
      requires Valid()
      modifies Lists()
      ensures Valid() && poolMap == old(poolMap)
      ensures r == if subnet in old(View()) then Ok(()) else Err(UndefinedSubnet)
      ensures View() == Deallocated(old(View()), subnet, address)
    {
      if subnet !in poolMap {
        return Err(UndefinedSubnet);
      }
      var pool := poolMap[subnet];
      FreeIn(address, pool);
      return Ok(());
    }

    static method FreeIn(address: int, pool: AddressList)
      modifies pool
      ensures pool.ranges == Freed(old(pool.ranges), address)
    {
      ghost var p, goal := pool.ranges, Freed(pool.ranges, address);
      for i := 0 to |pool.ranges|
        invariant pool.ranges == p
        invariant goal == p[..i] + Freed(p[i..], address)
      {
        FreedStep(p, i, address);
        var s, e := pool.ranges[i].lo, pool.ranges[i].hi;
        if address < s - 1 {
          pool.ranges := pool.ranges[..i] + [Range(address, address)] + pool.ranges[i..];
          return;
        } else if address == s - 1 {
          pool.ranges := pool.ranges[i := Range(s - 1, e)];
          return;
        } else if address == e + 1 {
          pool.ranges := pool.ranges[i := Range(s, e + 1)];
          if i + 1 < |pool.ranges| {
            var next := pool.ranges[i + 1];
            if next.lo - 1 == address {
              pool.ranges := pool.ranges[i := Range(s, next.hi)];
              pool.ranges := pool.ranges[..i + 1] + pool.ranges[i + 2..];
            }
          }
          return;
        } else if s < address < e {
          return;
        }
      }
      pool.ranges := pool.ranges + [Range(address, address)];
    }
  }
}
