/**
 The first half of one iteration of the network service: every new VM node and every
 new hardware port gets an address, over pools built from the ports already stored.
 Only `port.insert()` is an outside failure; its outcome is a parameter.
 */
module PortAllocation {
  import opened Common
  import opened AddressPool
  import opened NetworkModels
  import opened Ipam

  /** A VM node without ports; `target` is its `default_network["target_ipv4"]`. */
  datatype NewNode = NewNode(uuid: Uuid, target: Option<int>)

  datatype Lease = Lease(subnet: Uuid, address: int)

  /** `last` is the loop variable `port`, unbound until a first port exists.
      `planned` are the ports appended to the subnet map, `inserted` those stored. */
  datatype State = State(pools: Pools, last: Option<Lease>, planned: seq<Lease>, inserted: seq<Lease>)

  datatype Progress = Running(state: State) | Aborted

  /** The first subnet that is not the boot network. */
  function FirstMatch(subnets: seq<Subnet>): (r: Option<Uuid>)
    ensures r.Some? ==> exists i :: 0 <= i < |subnets| && subnets[i].uuid == r.value && subnets[i].nextServer.None?
                                    && forall j | 0 <= j < i :: subnets[j].nextServer.Some?
    ensures r.None? ==> forall s :: s in subnets ==> s.nextServer.Some?
  {
    if subnets == [] then None
    else if subnets[0].nextServer.None? then Some(subnets[0].uuid)
    else FirstMatch(subnets[1..])
  }

  /** One new node.  When the allocation itself fails, the error handler deallocates the
      address of whatever port an earlier node left behind; with no such port the
      handler fails too and the iteration is aborted. */
  function NodeStep(subnet: Option<Uuid>, st: State, node: NewNode, insertOk: bool): Progress {
    if subnet.None? then Running(st)
    else
      var (r, pools) := Allocated(st.pools, subnet.value, node.target);
      if r.Err? then
        if st.last.None? then Aborted
        else Running(st.(pools := Deallocated(pools, st.last.value.subnet, st.last.value.address)))
      else
        var port := Lease(subnet.value, r.value);
        var st' := st.(pools := pools, last := Some(port), planned := st.planned + [port]);
        if insertOk then Running(st'.(inserted := st.inserted + [port]))
        else Running(st'.(pools := Deallocated(pools, port.subnet, port.address)))
  }

  /** One new hardware port of the given subnet; any failure is only logged. */
  function HwStep(st: State, subnet: Uuid, insertOk: bool): State {
    var (r, pools) := Allocated(st.pools, subnet, None);
    if r.Err? then st
    else
      var port := Lease(subnet, r.value);
      if insertOk then st.(pools := pools, planned := st.planned + [port], inserted := st.inserted + [port])
      else st.(pools := pools)
  }

  function NodeSteps(subnet: Option<Uuid>, st: State, nodes: seq<NewNode>, ok: seq<bool>): Progress
    requires |ok| == |nodes|
    decreases nodes
  {
    if nodes == [] then Running(st)
    else
      var next := NodeStep(subnet, st, nodes[0], ok[0]);
      if next.Aborted? then Aborted else NodeSteps(subnet, next.state, nodes[1..], ok[1..])
  }

  function HwSteps(st: State, ports: seq<Uuid>, ok: seq<bool>): State
    requires |ok| == |ports|
    decreases ports
  {
    if ports == [] then st else HwSteps(HwStep(st, ports[0], ok[0]), ports[1..], ok[1..])
  }

  // ---- The loops ----

  /** The two allocation loops of `_iteration`. */
  method AllocatePorts(ipam: Ipam, subnets: seq<Subnet>, nodes: seq<NewNode>, hwPorts: seq<Uuid>,
                       nodeInsertOk: seq<bool>, hwInsertOk: seq<bool>)
    returns (aborted: bool, planned: seq<Lease>, inserted: seq<Lease>)
    requires ipam.Valid() && |nodeInsertOk| == |nodes| && |hwInsertOk| == |hwPorts|
    modifies ipam.Lists()
    ensures ipam.Valid()
    ensures var vms := NodeSteps(FirstMatch(subnets), State(old(ipam.View()), None, [], []), nodes, nodeInsertOk);
            && aborted == vms.Aborted?
            && (!aborted ==>
                  var end := HwSteps(vms.state, hwPorts, hwInsertOk);
                  ipam.View() == end.pools && planned == end.planned && inserted == end.inserted)
  {
    var last: Option<Lease> := None;
    planned, inserted := [], [];
    ghost var start := State(ipam.View(), None, [], []);
    ghost var goal := NodeSteps(FirstMatch(subnets), start, nodes, nodeInsertOk);
    for i := 0 to |nodes|
      invariant ipam.Valid() && ipam.poolMap == old(ipam.poolMap)
      invariant goal == NodeSteps(FirstMatch(subnets), State(ipam.View(), last, planned, inserted), nodes[i..], nodeInsertOk[i..])
    {
      assert nodes[i..][1..] == nodes[i + 1..] && nodeInsertOk[i..][1..] == nodeInsertOk[i + 1..];
      var subnet := FirstMatch(subnets);
      if subnet.None? {
        continue;
      }
      var r := ipam.AllocateIp(subnet.value, nodes[i].target);
      if r.Err? {
        if last.None? {
          return true, planned, inserted;
        }
        var _ := ipam.DeallocateIp(last.value.subnet, last.value.address);
        continue;
      }
      var port := Lease(subnet.value, r.value);
      last := Some(port);
      planned := planned + [port];
      if nodeInsertOk[i] {
        inserted := inserted + [port];
      } else {
        var _ := ipam.DeallocateIp(port.subnet, port.address);
      }
    }
    ghost var mid := State(ipam.View(), last, planned, inserted);
    for i := 0 to |hwPorts|
      invariant ipam.Valid() && ipam.poolMap == old(ipam.poolMap)
      invariant HwSteps(mid, hwPorts, hwInsertOk) == HwSteps(State(ipam.View(), last, planned, inserted), hwPorts[i..], hwInsertOk[i..])
    {
      assert hwPorts[i..][1..] == hwPorts[i + 1..] && hwInsertOk[i..][1..] == hwInsertOk[i + 1..];
      var r := ipam.AllocateIp(hwPorts[i], None);
      if r.Ok? && hwInsertOk[i] {
        inserted := inserted + [Lease(hwPorts[i], r.value)];
        planned := planned + [Lease(hwPorts[i], r.value)];
      }
    }
    aborted := false;
  }

  // ---- No address is given out twice ----

  /** The addresses held in a subnet: by ports stored before, and by ports inserted now. */
  ghost function Held(before: map<Uuid, set<int>>, inserted: seq<Lease>, subnet: Uuid): set<int> {
    (if subnet in before then before[subnet] else {}) + set l | l in inserted && l.subnet == subnet :: l.address
  }

  /** Inserted ports have pairwise distinct addresses, none held before. */
  ghost predicate NoDuplicates(before: map<Uuid, set<int>>, inserted: seq<Lease>) {
    && (forall i, j | 0 <= i < j < |inserted| :: inserted[i] != inserted[j])
    && (forall l | l in inserted && l.subnet in before :: l.address !in before[l.subnet])
  }

  /** What keeps duplicates out: pools in normal form that offer no held address; the
      port an earlier node left behind is held, or its address is back in the pool. */
  ghost predicate Inv(before: map<Uuid, set<int>>, subnet: Option<Uuid>, st: State) {
    && NoDuplicates(before, st.inserted)
    && (forall s | s in st.pools :: Normal(st.pools[s]) && Addresses(st.pools[s]) !! Held(before, st.inserted, s))
    && (st.last.Some? ==>
          var l := st.last.value;
          && subnet == Some(l.subnet) && l.subnet in st.pools
          && (l.address in Addresses(st.pools[l.subnet]) || l.address in Held(before, st.inserted, l.subnet)))
  }

  /** A request that can be checked before the call: the pool is not exhausted, and a
      requested address is not already held. */
  ghost predicate Safe(before: map<Uuid, set<int>>, subnet: Option<Uuid>, st: State, node: NewNode)
    requires subnet.Some? ==> subnet.value in st.pools
  {
    subnet.Some? ==>
      && st.pools[subnet.value] != []
      && (node.target.Some? ==> node.target.value !in Held(before, st.inserted, subnet.value))
  }

  lemma HeldAfterInsert(before: map<Uuid, set<int>>, inserted: seq<Lease>, l: Lease, s: Uuid)
    ensures Held(before, inserted + [l], s)
         == Held(before, inserted, s) + if s == l.subnet then {l.address} else {}
  {
    assert l in inserted + [l];
    forall x
      ensures x in Held(before, inserted + [l], s)
         <==> x in Held(before, inserted, s) || (s == l.subnet && x == l.address)
    {
      if x in Held(before, inserted, s) && !(s in before && x in before[s]) {
        var m :| m in inserted && m.subnet == s && m.address == x;
        assert m in inserted + [l];
      }
    }
  }

  lemma DistinctAfterInsert(before: map<Uuid, set<int>>, inserted: seq<Lease>, l: Lease)
    requires NoDuplicates(before, inserted)
    ensures NoDuplicates(before, inserted + [l]) <==> l.address !in Held(before, inserted, l.subnet)
  {
    var all := inserted + [l];
    if l.address in Held(before, inserted, l.subnet) {
      if l in inserted {
        var i :| 0 <= i < |inserted| && inserted[i] == l;
        assert all[i] == all[|inserted|];
      } else {
        assert l in all && l.address in before[l.subnet];
      }
    } else {
      assert l !in inserted;
    }
  }

  /** Handing out a free or foreign address keeps the invariant when it is then stored. */
  lemma InsertKeepsInv(before: map<Uuid, set<int>>, subnet: Option<Uuid>, st: State, l: Lease)
    requires Inv(before, subnet, st) && subnet == Some(l.subnet) && l.subnet in st.pools
    requires l.address !in Held(before, st.inserted, l.subnet)
    ensures Inv(before, subnet, State(st.pools[l.subnet := Occupied(st.pools[l.subnet], l.address)], Some(l),
                              st.planned + [l], st.inserted + [l]))
  {
    OccupiedMeaning(st.pools[l.subnet], l.address);
    DistinctAfterInsert(before, st.inserted, l);
    forall s {
      HeldAfterInsert(before, st.inserted, l, s);
    }
  }

  lemma FailedInsertKeepsInv(before: map<Uuid, set<int>>, subnet: Option<Uuid>, st: State, l: Lease)
    requires Inv(before, subnet, st) && subnet == Some(l.subnet) && l.subnet in st.pools
    requires l.address !in Held(before, st.inserted, l.subnet)
    ensures Inv(before, subnet, State(st.pools[l.subnet := Freed(Occupied(st.pools[l.subnet], l.address), l.address)],
                              Some(l), st.planned + [l], st.inserted))
  {
    OccupiedMeaning(st.pools[l.subnet], l.address);
    FreeingTakenKeepsNormal(Occupied(st.pools[l.subnet], l.address), l.address);
  }

  /** Putting a held address back into its pool breaks the invariant. */
  lemma FreeingHeldBreaksInv(before: map<Uuid, set<int>>, subnet: Option<Uuid>, st: State, l: Lease)
    requires l.subnet in st.pools && Normal(st.pools[l.subnet])
    requires l.address in Held(before, st.inserted, l.subnet)
    ensures !Inv(before, subnet, st.(pools := Deallocated(st.pools, l.subnet, l.address)))
  {
    FreedMeaning(st.pools[l.subnet], l.address);
    assert l.address in Addresses(Deallocated(st.pools, l.subnet, l.address)[l.subnet]);
  }

  /** With a pool that is not empty, the address is the target or the least free one. */
  function Given(p: Pool, node: NewNode): int
    requires p != []
  {
    if node.target.Some? then node.target.value else p[0].lo
  }

  lemma StepOutcome(s: Uuid, st: State, node: NewNode, insertOk: bool)
    requires s in st.pools && Normal(st.pools[s]) && st.pools[s] != []
    ensures var p := st.pools[s];
            var l := Lease(s, Given(p, node));
            var q := Occupied(p, l.address);
            NodeStep(Some(s), st, node, insertOk) == Running(
              if insertOk then State(st.pools[s := q], Some(l), st.planned + [l], st.inserted + [l])
              else State(st.pools[s := Freed(q, l.address)], Some(l), st.planned + [l], st.inserted))
  {
    var p := st.pools[s];
    FirstIsLeast(p);
    var l := Lease(s, Given(p, node));
    var q := Occupied(p, l.address);
    assert Allocated(st.pools, s, node.target) == (Ok(l.address), st.pools[s := q]);
    assert st.pools[s := q][s := Freed(q, l.address)] == st.pools[s := Freed(q, l.address)];
  }

  lemma HeldTargetBreaksInv(before: map<Uuid, set<int>>, s: Uuid, st: State, node: NewNode, insertOk: bool)
    requires Inv(before, Some(s), st) && s in st.pools && st.pools[s] != []
    requires Given(st.pools[s], node) in Held(before, st.inserted, s)
    ensures !Inv(before, Some(s), NodeStep(Some(s), st, node, insertOk).state)
  {
    StepOutcome(s, st, node, insertOk);
    var l := Lease(s, Given(st.pools[s], node));
    var q := Occupied(st.pools[s], l.address);
    if insertOk {
      DistinctAfterInsert(before, st.inserted, l);
    } else {
      OccupiedMeaning(st.pools[s], l.address);
      FreedMeaning(q, l.address);
      assert l.address in Addresses(NodeStep(Some(s), st, node, insertOk).state.pools[s]);
    }
  }

  /** One allocation, successful or not, keeps every address single exactly when the
      request was safe. */
  lemma StepKeepsInvIffSafe(before: map<Uuid, set<int>>, subnet: Option<Uuid>, st: State, node: NewNode, insertOk: bool)
    requires Inv(before, subnet, st)
    requires subnet.Some? ==> subnet.value in st.pools
    ensures var next := NodeStep(subnet, st, node, insertOk);
            next.Running? && Inv(before, subnet, next.state) <==> Safe(before, subnet, st, node)
  {
    if subnet.Some? {
      var s := subnet.value;
      var p := st.pools[s];
      if p == [] {
        if st.last.Some? {
          FreeingHeldBreaksInv(before, subnet, st, st.last.value);
        }
      } else {
        FirstIsLeast(p);
        StepOutcome(s, st, node, insertOk);
        var l := Lease(s, Given(p, node));
        if l.address in Held(before, st.inserted, s) {
          HeldTargetBreaksInv(before, s, st, node, insertOk);
        } else {
          InsertKeepsInv(before, subnet, st, l);
          FailedInsertKeepsInv(before, subnet, st, l);
        }
      }
    }
  }

  // ---- Whole runs ----

  ghost predicate SafeRun(before: map<Uuid, set<int>>, subnet: Option<Uuid>, st: State, nodes: seq<NewNode>, ok: seq<bool>)
    requires |ok| == |nodes|
    requires subnet.Some? ==> subnet.value in st.pools
    decreases nodes
  {
    nodes != [] ==>
      && Safe(before, subnet, st, nodes[0])
      && var next := NodeStep(subnet, st, nodes[0], ok[0]);
      && next.Running?
      && SafeRun(before, subnet, next.state, nodes[1..], ok[1..])
  }

  lemma {:induction false} SafeRunKeepsInv(before: map<Uuid, set<int>>, subnet: Option<Uuid>, st: State, nodes: seq<NewNode>, ok: seq<bool>)
    requires |ok| == |nodes|
    requires Inv(before, subnet, st)
    requires subnet.Some? ==> subnet.value in st.pools
    requires SafeRun(before, subnet, st, nodes, ok)
    ensures var end := NodeSteps(subnet, st, nodes, ok);
            end.Running? && Inv(before, subnet, end.state)
    decreases nodes
  {
    if nodes != [] {
      StepKeepsInvIffSafe(before, subnet, st, nodes[0], ok[0]);
      SafeRunKeepsInv(before, subnet, NodeStep(subnet, st, nodes[0], ok[0]).state, nodes[1..], ok[1..]);
    }
  }

  lemma ForgetLast(before: map<Uuid, set<int>>, subnet: Option<Uuid>, st: State)
    requires Inv(before, subnet, st)
    ensures Inv(before, None, st.(last := None))
  {
  }

  lemma InvMeansNoDuplicates(before: map<Uuid, set<int>>, st: State)
    requires Inv(before, None, st.(last := None))
    ensures NoDuplicates(before, st.inserted)
  {
  }

  lemma HwStepKeepsInv(before: map<Uuid, set<int>>, st: State, subnet: Uuid, insertOk: bool)
    requires Inv(before, None, st.(last := None))
    ensures Inv(before, None, HwStep(st, subnet, insertOk).(last := None))
  {
    if subnet in st.pools && st.pools[subnet] != [] {
      var p := st.pools[subnet];
      FirstIsLeast(p);
      OccupiedMeaning(p, p[0].lo);
      var l := Lease(subnet, p[0].lo);
      DistinctAfterInsert(before, st.inserted, l);
      forall s {
        HeldAfterInsert(before, st.inserted, l, s);
      }
    }
  }

  lemma {:induction false} HwStepsKeepInv(before: map<Uuid, set<int>>, st: State, ports: seq<Uuid>, ok: seq<bool>)
    requires |ok| == |ports|
    requires Inv(before, None, st.(last := None))
    ensures Inv(before, None, HwSteps(st, ports, ok).(last := None))
    decreases ports
  {
    if ports != [] {
      HwStepKeepsInv(before, st, ports[0], ok[0]);
      HwStepsKeepInv(before, HwStep(st, ports[0], ok[0]), ports[1..], ok[1..]);
    }
  }

  lemma RunGivesNoDuplicates(before: map<Uuid, set<int>>, subnet: Option<Uuid>, start: State, nodes: seq<NewNode>,
                             hwPorts: seq<Uuid>, nodeOk: seq<bool>, hwOk: seq<bool>)
    requires |nodeOk| == |nodes| && |hwOk| == |hwPorts|
    requires subnet.Some? ==> subnet.value in start.pools
    requires Inv(before, subnet, start) && SafeRun(before, subnet, start, nodes, nodeOk)
    ensures var vms := NodeSteps(subnet, start, nodes, nodeOk);
            vms.Running? && NoDuplicates(before, HwSteps(vms.state, hwPorts, hwOk).inserted)
  {
    SafeRunKeepsInv(before, subnet, start, nodes, nodeOk);
    var mid := NodeSteps(subnet, start, nodes, nodeOk).state;
    ForgetLast(before, subnet, mid);
    HwStepsKeepInv(before, mid, hwPorts, hwOk);
    InvMeansNoDuplicates(before, HwSteps(mid, hwPorts, hwOk));
  }

  /** Addresses held by the stored ports. */
  ghost function HeldBefore(ports: map<Uuid, seq<Port>>): map<Uuid, set<int>> {
    map s | s in ports :: Elements(PortAddresses(ports[s]))
  }

  lemma StartIsInv(subnets: seq<Subnet>, ports: map<Uuid, seq<Port>>)
    requires DistinctSubnets(subnets)
    requires forall s | s in subnets :: s.uuid in ports && !HiddenPort(s, ports[s.uuid])
    ensures Inv(HeldBefore(ports), FirstMatch(subnets), State(InitialPools(subnets, ports), None, [], []))
  {
    InitialPoolsAre(subnets, ports);
    var pools := InitialPools(subnets, ports);
    forall u | u in pools
      ensures Normal(pools[u]) && Addresses(pools[u]) !! Held(HeldBefore(ports), [], u)
    {
      var s :| s in subnets && s.uuid == u;
      InitialPoolMeaning(s, ports[u]);
      PortAddressesAre(ports[u]);
    }
  }

  /** Over a whole iteration whose requests are safe, no inserted port shares an address
      with another inserted port of its subnet or with a port stored before. */
  lemma {:induction false} IterationGivesNoDuplicates(subnets: seq<Subnet>, ports: map<Uuid, seq<Port>>, nodes: seq<NewNode>,
                                   hwPorts: seq<Uuid>, nodeOk: seq<bool>, hwOk: seq<bool>)
    requires |nodeOk| == |nodes| && |hwOk| == |hwPorts|
    requires DistinctSubnets(subnets)
    requires forall s | s in subnets :: s.uuid in ports && !HiddenPort(s, ports[s.uuid])
    requires SafeRun(HeldBefore(ports), FirstMatch(subnets), State(InitialPools(subnets, ports), None, [], []), nodes, nodeOk)
    ensures var vms := NodeSteps(FirstMatch(subnets), State(InitialPools(subnets, ports), None, [], []), nodes, nodeOk);
            vms.Running? && NoDuplicates(HeldBefore(ports), HwSteps(vms.state, hwPorts, hwOk).inserted)
  {
    var before := HeldBefore(ports);
    var subnet := FirstMatch(subnets);
    var start := State(InitialPools(subnets, ports), None, [], []);
    StartIsInv(subnets, ports);
    RunGivesNoDuplicates(before, subnet, start, nodes, hwPorts, nodeOk, hwOk);
  }

  lemma UntargetedStep(before: map<Uuid, set<int>>, s: Uuid, st: State, node: NewNode)
    requires s in st.pools && Inv(before, Some(s), st) && st.pools[s] != [] && node.target.None?
    ensures Safe(before, Some(s), st, node)
    ensures var next := NodeStep(Some(s), st, node, true);
            && next.Running? && s in next.state.pools && Inv(before, Some(s), next.state)
            && |Addresses(next.state.pools[s])| == |Addresses(st.pools[s])| - 1
  {
    FirstIsLeast(st.pools[s]);
    StepOutcome(s, st, node, true);
    OccupiedMeaning(st.pools[s], st.pools[s][0].lo);
    assert Safe(before, Some(s), st, node);
    StepKeepsInvIffSafe(before, Some(s), st, node, true);
  }

  /** When nobody asks for a particular address and every insert succeeds, the
      requests are safe exactly when there are enough free addresses for all of them. */
  lemma {:induction false} SafeIffEnoughFree(before: map<Uuid, set<int>>, s: Uuid, st: State, nodes: seq<NewNode>, ok: seq<bool>)
    requires |ok| == |nodes|
    requires s in st.pools && Inv(before, Some(s), st)
    requires forall i | 0 <= i < |nodes| :: nodes[i].target.None? && ok[i]
    ensures SafeRun(before, Some(s), st, nodes, ok) <==> |nodes| <= |Addresses(st.pools[s])|
    decreases nodes
  {
    if nodes == [] {
    } else if st.pools[s] == [] {
      assert !Safe(before, Some(s), st, nodes[0]);
    } else {
      UntargetedStep(before, s, st, nodes[0]);
      var next := NodeStep(Some(s), st, nodes[0], ok[0]).state;
      SafeIffEnoughFree(before, s, next, nodes[1..], ok[1..]);
    }
  }

  /** Three nodes and one free address: the failure of the second allocation frees the
      address of the first node, and the third node gets it again. */
  lemma ExhaustionDuplicatesAddress(s: Uuid, a: int, n: NewNode)
    requires n.target.None?
    ensures var end := NodeSteps(Some(s), State(map[s := [Range(a, a)]], None, [], []), [n, n, n], [true, true, true]);
            end == Running(State(map[s := []], Some(Lease(s, a)), [Lease(s, a), Lease(s, a)], [Lease(s, a), Lease(s, a)]))
  {
    var l := Lease(s, a);
    var st0 := State(map[s := [Range(a, a)]], None, [], []);
    var st1 := State(map[s := []], Some(l), [l], [l]);
    var st2 := State(map[s := [Range(a, a)]], Some(l), [l], [l]);
    var st3 := State(map[s := []], Some(l), [l, l], [l, l]);
    assert NodeStep(Some(s), st0, n, true) == Running(st1);
    assert NodeStep(Some(s), st1, n, true) == Running(st2);
    assert NodeStep(Some(s), st2, n, true) == Running(st3);
    var nodes, ok := [n, n, n], [true, true, true];
    assert nodes[1..] == [n, n] && ok[1..] == [true, true];
    assert [n, n][1..] == [n] && [true, true][1..] == [true];
    assert NodeSteps(Some(s), st2, [n], [true]) == NodeSteps(Some(s), st3, [n][1..], [true][1..]);
    assert NodeSteps(Some(s), st1, [n, n], [true, true]) == NodeSteps(Some(s), st2, [n], [true]);
  }

  /** A failed insert leaves its port in the subnet map, while its address goes to the next node. */
  lemma FailedInsertPlansAddressTwice(s: Uuid, a: int, n: NewNode)
    requires n.target.None?
    ensures var end := NodeSteps(Some(s), State(map[s := [Range(a, a)]], None, [], []), [n, n], [false, true]);
            end.Running? && end.state.inserted == [Lease(s, a)] && end.state.planned == [Lease(s, a), Lease(s, a)]
  {
    var l := Lease(s, a);
    var st0 := State(map[s := [Range(a, a)]], None, [], []);
    var st1 := State(map[s := [Range(a, a)]], Some(l), [l], []);
    assert NodeStep(Some(s), st0, n, false) == Running(st1);
    var nodes, ok := [n, n], [false, true];
    assert nodes[1..] == [n] && ok[1..] == [true];
    assert NodeSteps(Some(s), st1, [n], [true]) == NodeSteps(Some(s), NodeStep(Some(s), st1, n, true).state, [n][1..], [true][1..]);
  }
}
