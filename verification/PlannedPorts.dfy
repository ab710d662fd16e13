/**
 The ports an iteration pushes to the data plane: those appended to the subnet map, stored
 or not. A node's port is appended before it is inserted, so one whose insert failed is
 pushed too, while its address is free again.
 */
module PlannedPorts {
  import opened Common
  import opened AddressPool
  import opened Keyed
  import opened NetworkModels
  import opened Ipam
  import opened PortAllocation

  // ---- Any requests: only failed inserts repeat an address ----

  /** The ports planned by a run, after those of its start. */
  ghost function NewlyPlanned(st: State, end: State): seq<Lease>
    requires st.planned <= end.planned
  {
    end.planned[|st.planned|..]
  }

  lemma {:induction false} NodeStepsPlanOn(subnet: Option<Uuid>, st: State, nodes: seq<NewNode>, ok: seq<bool>)
    requires |ok| == |nodes| && NodeSteps(subnet, st, nodes, ok).Running?
    ensures st.planned <= NodeSteps(subnet, st, nodes, ok).state.planned
    decreases nodes
  {
    if nodes != [] {
      NodeStepsPlanOn(subnet, NodeStep(subnet, st, nodes[0], ok[0]).state, nodes[1..], ok[1..]);
    }
  }

  lemma {:induction false} HwStepsPlanOn(st: State, ports: seq<Uuid>, ok: seq<bool>)
    requires |ok| == |ports|
    ensures st.planned <= HwSteps(st, ports, ok).planned
    decreases ports
  {
    if ports != [] {
      HwStepsPlanOn(HwStep(st, ports[0], ok[0]), ports[1..], ok[1..]);
    }
  }

  /** A repeated address stays one. */
  lemma RepeatsStay(before: map<Uuid, set<int>>, a: seq<Lease>, b: seq<Lease>)
    requires a <= b && NoDuplicates(before, b)
    ensures NoDuplicates(before, a)
  {
    assert forall i | 0 <= i < |a| :: a[i] == b[i];
    assert forall l | l in a :: l in b;
  }

  // ---- Requests without a target ----

  ghost predicate Untargeted(nodes: seq<NewNode>) {
    forall n | n in nodes :: n.target.None?
  }

  predicate AllButLast(ok: seq<bool>) {
    forall i | 0 <= i < |ok| - 1 :: ok[i]
  }

  predicate LastOk(ok: seq<bool>) {
    ok != [] ==> ok[|ok| - 1]
  }

  /** No planned port has a free address. */
  ghost predicate Clean(before: map<Uuid, set<int>>, st: State) {
    Inv(before, None, State(st.pools, None, st.planned, st.planned))
  }

  /** The planned ports are distinct, but the next address given in its subnet repeats `l`. */
  ghost predicate Stranded(before: map<Uuid, set<int>>, st: State, l: Lease) {
    && NoDuplicates(before, st.planned) && l in st.planned
    && l.subnet in st.pools && st.pools[l.subnet] != [] && st.pools[l.subnet][0].lo == l.address
    && (forall u | u in st.pools ::
          && Normal(st.pools[u])
          && FreeBut(st, l, u) !! Held(before, st.planned, u))
  }

  ghost function FreeBut(st: State, l: Lease, u: Uuid): set<int>
    requires u in st.pools
  {
    Addresses(st.pools[u]) - if u == l.subnet then {l.address} else {}
  }

  /** An address that no planned port has, taken out of its pool and planned. */
  lemma PlanFree(before: map<Uuid, set<int>>, st: State, l: Lease, last: Option<Lease>, inserted: seq<Lease>)
    requires Clean(before, st) && l.subnet in st.pools && l.address in Addresses(st.pools[l.subnet])
    ensures Clean(before, State(st.pools[l.subnet := Occupied(st.pools[l.subnet], l.address)], last, st.planned + [l], inserted))
  {
    var shadow := State(st.pools, None, st.planned, st.planned);
    assert Inv(before, Some(l.subnet), shadow);
    InsertKeepsInv(before, Some(l.subnet), shadow, l);
  }

  /** The same when the insert fails: the very pool is restored, its first address planned. */
  lemma PlanAndFree(before: map<Uuid, set<int>>, st: State, s: Uuid, last: Option<Lease>, inserted: seq<Lease>)
    requires Clean(before, st) && s in st.pools && st.pools[s] != []
    ensures var l := Lease(s, st.pools[s][0].lo);
            && Freed(Occupied(st.pools[s], l.address), l.address) == st.pools[s]
            && Stranded(before, State(st.pools, last, st.planned + [l], inserted), l)
  {
    var p := st.pools[s];
    var l := Lease(s, p[0].lo);
    FirstIsLeast(p);
    FreeUndoesOccupy(p, l.address);
    DistinctAfterInsert(before, st.planned, l);
    forall u | u in st.pools
      ensures FreeBut(State(st.pools, last, st.planned + [l], inserted), l, u) !! Held(before, st.planned + [l], u)
    {
      HeldAfterInsert(before, st.planned, l, u);
      assert Addresses(st.pools[u]) !! Held(before, st.planned, u);
    }
  }

  lemma PlannedAgain(before: map<Uuid, set<int>>, planned: seq<Lease>, l: Lease)
    requires l in planned
    ensures !NoDuplicates(before, planned + [l])
  {
    var i :| 0 <= i < |planned| && planned[i] == l;
    assert (planned + [l])[i] == (planned + [l])[|planned|];
  }

  /** After a failed insert, the next node plans the same address again. */
  lemma StrandedNodeRepeats(before: map<Uuid, set<int>>, st: State, l: Lease, nodes: seq<NewNode>, ok: seq<bool>)
    requires |ok| == |nodes| && nodes != [] && Stranded(before, st, l) && nodes[0].target.None?
    requires NodeSteps(Some(l.subnet), st, nodes, ok).Running?
    ensures !NoDuplicates(before, NodeSteps(Some(l.subnet), st, nodes, ok).state.planned)
  {
    StepOutcome(l.subnet, st, nodes[0], ok[0]);
    var next := NodeStep(Some(l.subnet), st, nodes[0], ok[0]).state;
    var end := NodeSteps(Some(l.subnet), st, nodes, ok).state;
    assert next.planned == st.planned + [l];
    PlannedAgain(before, st.planned, l);
    NodeStepsPlanOn(Some(l.subnet), next, nodes[1..], ok[1..]);
    if NoDuplicates(before, end.planned) {
      RepeatsStay(before, next.planned, end.planned);
    }
  }

  /** How a run without targets ends: clean, or with the last node's port stranded. */
  ghost predicate EndsWell(before: map<Uuid, set<int>>, s: Uuid, end: State, ok: seq<bool>) {
    if LastOk(ok) then Clean(before, end) else exists a :: Stranded(before, end, Lease(s, a))
  }

  /** Over a safe run without targets, the planned addresses are distinct, and distinct from
      those of stored ports, if and only if every insert but the last node's succeeds. */
  lemma {:induction false} PlannedDistinctIff(before: map<Uuid, set<int>>, s: Uuid, st: State, nodes: seq<NewNode>, ok: seq<bool>)
    requires |ok| == |nodes| && s in st.pools && Clean(before, st)
    requires Untargeted(nodes) && SafeRun(before, Some(s), st, nodes, ok)
    ensures var run := NodeSteps(Some(s), st, nodes, ok);
            && run.Running?
            && (NoDuplicates(before, run.state.planned) <==> AllButLast(ok))
            && (AllButLast(ok) ==> EndsWell(before, s, run.state, ok))
    decreases nodes
  {
    if nodes != [] {
      assert nodes[0] in nodes && forall n | n in nodes[1..] :: n in nodes;
      var p := st.pools[s];
      var l := Lease(s, p[0].lo);
      FirstIsLeast(p);
      StepOutcome(s, st, nodes[0], ok[0]);
      var next := NodeStep(Some(s), st, nodes[0], ok[0]).state;
      if ok[0] {
        PlanFree(before, st, l, next.last, next.inserted);
        PlannedDistinctIff(before, s, next, nodes[1..], ok[1..]);
        assert AllButLast(ok) <==> AllButLast(ok[1..]) by {
          RestAllButLast(ok);
        }
      } else {
        PlanAndFree(before, st, s, next.last, next.inserted);
        PutBack(st.pools, s, p);
        assert Stranded(before, next, l);
        StrandedRun(before, s, next, l, nodes, ok);
      }
    }
  }

  lemma RestAllButLast(ok: seq<bool>)
    requires ok != [] && ok[0]
    ensures AllButLast(ok) <==> AllButLast(ok[1..])
  {
    if AllButLast(ok[1..]) {
      forall i | 0 <= i < |ok| - 1
        ensures ok[i]
      {
        assert i > 0 ==> ok[1..][i - 1];
      }
    }
  }

  lemma StrandedRun(before: map<Uuid, set<int>>, s: Uuid, next: State, l: Lease, nodes: seq<NewNode>, ok: seq<bool>)
    requires |ok| == |nodes| && nodes != [] && !ok[0] && Untargeted(nodes)
    requires l.subnet == s && Stranded(before, next, l) && SafeRun(before, Some(s), next, nodes[1..], ok[1..])
    ensures var run := NodeSteps(Some(s), next, nodes[1..], ok[1..]);
            && run.Running?
            && (NoDuplicates(before, run.state.planned) <==> AllButLast(ok))
            && (AllButLast(ok) ==> EndsWell(before, s, run.state, ok))
  {
    if |nodes| > 1 {
      assert nodes[1] in nodes;
      SafeRunRuns(before, Some(s), next, nodes[1..], ok[1..]);
      StrandedNodeRepeats(before, next, l, nodes[1..], ok[1..]);
    }
  }

  lemma {:induction false} SafeRunRuns(before: map<Uuid, set<int>>, subnet: Option<Uuid>, st: State, nodes: seq<NewNode>, ok: seq<bool>)
    requires |ok| == |nodes| && (subnet.Some? ==> subnet.value in st.pools) && SafeRun(before, subnet, st, nodes, ok)
    ensures NodeSteps(subnet, st, nodes, ok).Running?
    decreases nodes
  {
    if nodes != [] {
      SafeRunRuns(before, subnet, NodeStep(subnet, st, nodes[0], ok[0]).state, nodes[1..], ok[1..]);
    }
  }

  // ---- The hardware ports that follow ----

  /** The first hardware port of the subnet is inserted. */
  predicate FirstInserted(s: Uuid, ports: seq<Uuid>, ok: seq<bool>)
    requires |ok| == |ports|
    decreases ports
  {
    ports != [] && if ports[0] == s then ok[0] else FirstInserted(s, ports[1..], ok[1..])
  }

  lemma {:induction false} CleanHwSteps(before: map<Uuid, set<int>>, st: State, ports: seq<Uuid>, ok: seq<bool>)
    requires |ok| == |ports| && Clean(before, st)
    ensures NoDuplicates(before, HwSteps(st, ports, ok).planned)
    decreases ports
  {
    if ports != [] {
      CleanHwStep(before, st, ports[0], ok[0]);
      CleanHwSteps(before, HwStep(st, ports[0], ok[0]), ports[1..], ok[1..]);
    }
  }

  lemma CleanHwStep(before: map<Uuid, set<int>>, st: State, u: Uuid, insertOk: bool)
    requires Clean(before, st)
    ensures Clean(before, HwStep(st, u, insertOk))
  {
    var shadow := State(st.pools, None, st.planned, st.planned);
    HwStepKeepsInv(before, shadow, u, insertOk);
  }

  /** In its own subnet the stranded address is given next: repeated, or used up by a
      failed insert. */
  lemma StrandedHwStep(before: map<Uuid, set<int>>, st: State, l: Lease, insertOk: bool)
    requires Stranded(before, st, l)
    ensures var next := HwStep(st, l.subnet, insertOk);
            if insertOk then !NoDuplicates(before, next.planned) else Clean(before, next)
  {
    var p := st.pools[l.subnet];
    FirstIsLeast(p);
    OccupiedMeaning(p, l.address);
    if insertOk {
      PlannedAgain(before, st.planned, l);
    } else {
      var next := HwStep(st, l.subnet, insertOk);
      forall u | u in next.pools
        ensures Normal(next.pools[u]) && Addresses(next.pools[u]) !! Held(before, next.planned, u)
      {
        assert FreeBut(st, l, u) !! Held(before, st.planned, u);
      }
    }
  }

  /** In another subnet it stays stranded. */
  lemma StrandedElsewhere(before: map<Uuid, set<int>>, st: State, l: Lease, u: Uuid, insertOk: bool)
    requires Stranded(before, st, l) && u != l.subnet
    ensures Stranded(before, HwStep(st, u, insertOk), l)
  {
    if u in st.pools && st.pools[u] != [] {
      var p := st.pools[u];
      var port := Lease(u, p[0].lo);
      var next := HwStep(st, u, insertOk);
      FirstIsLeast(p);
      OccupiedMeaning(p, port.address);
      assert FreeBut(st, l, u) == Addresses(p);
      DistinctAfterInsert(before, st.planned, port);
      forall v | v in next.pools
        ensures Normal(next.pools[v]) && FreeBut(next, l, v) !! Held(before, next.planned, v)
      {
        assert FreeBut(st, l, v) !! Held(before, st.planned, v);
        HeldAfterInsert(before, st.planned, port, v);
      }
    }
  }

  lemma {:induction false} StrandedHwSteps(before: map<Uuid, set<int>>, st: State, l: Lease, ports: seq<Uuid>, ok: seq<bool>)
    requires |ok| == |ports| && Stranded(before, st, l)
    ensures NoDuplicates(before, HwSteps(st, ports, ok).planned) <==> !FirstInserted(l.subnet, ports, ok)
    decreases ports
  {
    if ports != [] {
      var next := HwStep(st, ports[0], ok[0]);
      if ports[0] != l.subnet {
        StrandedElsewhere(before, st, l, ports[0], ok[0]);
        StrandedHwSteps(before, next, l, ports[1..], ok[1..]);
      } else {
        StrandedHwStep(before, st, l, ok[0]);
        if ok[0] {
          HwStepsPlanOn(next, ports[1..], ok[1..]);
          if NoDuplicates(before, HwSteps(st, ports, ok).planned) {
            RepeatsStay(before, next.planned, HwSteps(st, ports, ok).planned);
          }
        } else {
          CleanHwSteps(before, next, ports[1..], ok[1..]);
        }
      }
    }
  }

  lemma RepeatsStayInHw(before: map<Uuid, set<int>>, st: State, ports: seq<Uuid>, ok: seq<bool>)
    requires |ok| == |ports| && !NoDuplicates(before, st.planned)
    ensures !NoDuplicates(before, HwSteps(st, ports, ok).planned)
  {
    HwStepsPlanOn(st, ports, ok);
    if NoDuplicates(before, HwSteps(st, ports, ok).planned) {
      RepeatsStay(before, st.planned, HwSteps(st, ports, ok).planned);
    }
  }

  lemma {:induction false} NoSubnetNoPort(st: State, nodes: seq<NewNode>, ok: seq<bool>)
    requires |ok| == |nodes|
    ensures NodeSteps(None, st, nodes, ok) == Running(st)
    decreases nodes
  {
    if nodes != [] {
      NoSubnetNoPort(st, nodes[1..], ok[1..]);
    }
  }

  lemma StartIsClean(subnets: seq<Subnet>, ports: map<Uuid, seq<Port>>)
    requires DistinctSubnets(subnets)
    requires forall t | t in subnets :: t.uuid in ports && !HiddenPort(t, ports[t.uuid])
    ensures Clean(HeldBefore(ports), State(InitialPools(subnets, ports), None, [], []))
  {
    StartIsInv(subnets, ports);
    ForgetLast(HeldBefore(ports), FirstMatch(subnets), State(InitialPools(subnets, ports), None, [], []));
  }

  /** Over a whole iteration without targets whose requests are safe, all ports pushed to the
      data plane have addresses of their own if and only if every node's insert but the
      last succeeds, and, should the last one fail, the first hardware port of that
      subnet is not inserted either. */
  lemma {:induction false} IterationPlansDistinctIff(subnets: seq<Subnet>, ports: map<Uuid, seq<Port>>, nodes: seq<NewNode>,
                                                     hwPorts: seq<Uuid>, nodeOk: seq<bool>, hwOk: seq<bool>)
    requires |nodeOk| == |nodes| && |hwOk| == |hwPorts| && Untargeted(nodes)
    requires DistinctSubnets(subnets)
    requires forall t | t in subnets :: t.uuid in ports && !HiddenPort(t, ports[t.uuid])
    requires SafeRun(HeldBefore(ports), FirstMatch(subnets), State(InitialPools(subnets, ports), None, [], []), nodes, nodeOk)
    ensures var s := FirstMatch(subnets);
            var vms := NodeSteps(s, State(InitialPools(subnets, ports), None, [], []), nodes, nodeOk);
            && vms.Running?
            && (NoDuplicates(HeldBefore(ports), HwSteps(vms.state, hwPorts, hwOk).planned) <==>
                  s.None? || (AllButLast(nodeOk) && (LastOk(nodeOk) || !FirstInserted(s.value, hwPorts, hwOk))))
  {
    var before, start := HeldBefore(ports), State(InitialPools(subnets, ports), None, [], []);
    StartIsClean(subnets, ports);
    if FirstMatch(subnets).None? {
      NoSubnetNoPort(start, nodes, nodeOk);
      CleanHwSteps(before, start, hwPorts, hwOk);
    } else {
      var s := FirstMatch(subnets).value;
      PlannedDistinctIff(before, s, start, nodes, nodeOk);
      AfterHwDistinctIff(before, s, NodeSteps(Some(s), start, nodes, nodeOk).state, nodeOk, hwPorts, hwOk);
    }
  }

  lemma AfterHwDistinctIff(before: map<Uuid, set<int>>, s: Uuid, mid: State, nodeOk: seq<bool>, hwPorts: seq<Uuid>, hwOk: seq<bool>)
    requires |hwOk| == |hwPorts| && (NoDuplicates(before, mid.planned) <==> AllButLast(nodeOk))
    requires AllButLast(nodeOk) ==> EndsWell(before, s, mid, nodeOk)
    ensures NoDuplicates(before, HwSteps(mid, hwPorts, hwOk).planned) <==>
              AllButLast(nodeOk) && (LastOk(nodeOk) || !FirstInserted(s, hwPorts, hwOk))
  {
    if !AllButLast(nodeOk) {
      RepeatsStayInHw(before, mid, hwPorts, hwOk);
    } else if LastOk(nodeOk) {
      CleanHwSteps(before, mid, hwPorts, hwOk);
    } else {
      var a :| Stranded(before, mid, Lease(s, a));
      StrandedHwSteps(before, mid, Lease(s, a), hwPorts, hwOk);
    }
  }

  // ---- Requests with targets ----

  /** `more` are ports planned after the leases of `inserted` were stored. */
  ghost predicate Unheld(before: map<Uuid, set<int>>, inserted: seq<Lease>, more: seq<Lease>) {
    forall l | l in more :: l.address !in Held(before, inserted, l.subnet)
  }

  /** What was inserted is not given again. */
  ghost predicate InsertedOnce(planned: seq<Lease>, ok: seq<bool>) {
    forall i, j | 0 <= i < |ok| && i < j < |planned| && ok[i] :: planned[i] != planned[j]
  }

  /** What a failed insert returned is not given again. */
  ghost predicate ReturnedOnce(planned: seq<Lease>, ok: seq<bool>) {
    forall i, j | 0 <= i < |ok| && i < j < |planned| && !ok[i] :: planned[i] != planned[j]
  }

  lemma HeldGrows(before: map<Uuid, set<int>>, a: seq<Lease>, b: seq<Lease>, u: Uuid)
    requires forall l | l in a :: l in b
    ensures Held(before, a, u) <= Held(before, b, u)
  {
  }

  /** A port given in a safe step: its address is not held. */
  lemma StepGivesUnheld(before: map<Uuid, set<int>>, s: Uuid, st: State, node: NewNode, insertOk: bool)
    requires s in st.pools && Inv(before, Some(s), st) && Safe(before, Some(s), st, node)
    ensures var l, next := Lease(s, Given(st.pools[s], node)), NodeStep(Some(s), st, node, insertOk).state;
            && l.address !in Held(before, st.inserted, s)
            && next.planned == st.planned + [l]
            && next.inserted == (if insertOk then st.inserted + [l] else st.inserted)
  {
    FirstIsLeast(st.pools[s]);
    StepOutcome(s, st, node, insertOk);
  }

  lemma {:induction false} NodesGiveUnheld(before: map<Uuid, set<int>>, s: Uuid, st: State, nodes: seq<NewNode>, ok: seq<bool>)
    requires |ok| == |nodes| && s in st.pools && Inv(before, Some(s), st)
    requires SafeRun(before, Some(s), st, nodes, ok)
    ensures NodeSteps(Some(s), st, nodes, ok).Running?
    ensures var end := NodeSteps(Some(s), st, nodes, ok).state;
            && st.planned <= end.planned && |end.planned| == |st.planned| + |nodes|
            && st.inserted <= end.inserted
            && Unheld(before, st.inserted, NewlyPlanned(st, end))
            && InsertedOnce(NewlyPlanned(st, end), ok)
            && (forall i | 0 <= i < |nodes| && ok[i] :: NewlyPlanned(st, end)[i] in end.inserted)
    decreases nodes
  {
    if nodes != [] {
      var l := Lease(s, Given(st.pools[s], nodes[0]));
      StepGivesUnheld(before, s, st, nodes[0], ok[0]);
      StepKeepsInvIffSafe(before, Some(s), st, nodes[0], ok[0]);
      var next := NodeStep(Some(s), st, nodes[0], ok[0]).state;
      NodesGiveUnheld(before, s, next, nodes[1..], ok[1..]);
      var end := NodeSteps(Some(s), st, nodes, ok).state;
      OneMoreGiven(before, st, next, end, l, ok);
    }
  }

  lemma OneMoreGiven(before: map<Uuid, set<int>>, st: State, next: State, end: State, l: Lease, ok: seq<bool>)
    requires ok != [] && next.planned == st.planned + [l] && l.address !in Held(before, st.inserted, l.subnet)
    requires next.inserted == if ok[0] then st.inserted + [l] else st.inserted
    requires next.planned <= end.planned && |end.planned| == |next.planned| + |ok| - 1 && next.inserted <= end.inserted
    requires Unheld(before, next.inserted, NewlyPlanned(next, end)) && InsertedOnce(NewlyPlanned(next, end), ok[1..])
    requires forall i | 0 <= i < |ok| - 1 && ok[1..][i] :: NewlyPlanned(next, end)[i] in end.inserted
    ensures st.planned <= end.planned && st.inserted <= end.inserted
    ensures Unheld(before, st.inserted, NewlyPlanned(st, end)) && InsertedOnce(NewlyPlanned(st, end), ok)
    ensures forall i | 0 <= i < |ok| && ok[i] :: NewlyPlanned(st, end)[i] in end.inserted
  {
    var more := NewlyPlanned(next, end);
    assert NewlyPlanned(st, end) == [l] + more;
    PrependUnheld(before, st.inserted, next.inserted, l, more);
    if ok[0] {
      assert l in next.inserted;
      UnheldExcludes(before, next.inserted, more, l);
    }
    PrependOnce(l, more, end.inserted, ok);
  }

  lemma PrependUnheld(before: map<Uuid, set<int>>, a: seq<Lease>, b: seq<Lease>, l: Lease, more: seq<Lease>)
    requires a <= b && l.address !in Held(before, a, l.subnet) && Unheld(before, b, more)
    ensures Unheld(before, a, [l] + more)
  {
    forall x | x in more
      ensures x.address !in Held(before, a, x.subnet)
    {
      assert forall y | y in a :: y in b;
      HeldGrows(before, a, b, x.subnet);
    }
  }

  lemma UnheldExcludes(before: map<Uuid, set<int>>, inserted: seq<Lease>, more: seq<Lease>, l: Lease)
    requires l in inserted && Unheld(before, inserted, more)
    ensures l !in more
  {
    assert l.address in Held(before, inserted, l.subnet);
  }

  lemma PrependOnce(l: Lease, more: seq<Lease>, inserted: seq<Lease>, ok: seq<bool>)
    requires ok != [] && |more| == |ok| - 1 && InsertedOnce(more, ok[1..]) && (ok[0] ==> l !in more && l in inserted)
    requires forall i | 0 <= i < |ok| - 1 && ok[1..][i] :: more[i] in inserted
    ensures InsertedOnce([l] + more, ok)
    ensures forall i | 0 <= i < |ok| && ok[i] :: ([l] + more)[i] in inserted
  {
    var all := [l] + more;
    forall i, j | 0 <= i < |ok| && i < j < |all| && ok[i]
      ensures all[i] != all[j]
    {
      assert all[j] == more[j - 1] && more[j - 1] in more;
      if i > 0 {
        assert ok[1..][i - 1] && all[i] == more[i - 1];
      }
    }
    forall i | 0 <= i < |ok| && ok[i]
      ensures all[i] in inserted
    {
      if i > 0 {
        assert ok[1..][i - 1] && all[i] == more[i - 1];
      }
    }
  }

  lemma HwGivesUnheld(before: map<Uuid, set<int>>, st: State, u: Uuid, insertOk: bool)
    requires Inv(before, None, st.(last := None))
    ensures var next := HwStep(st, u, insertOk);
            || (next.planned == st.planned && next.inserted == st.inserted)
            || (exists l :: next.planned == st.planned + [l] && next.inserted == st.inserted + [l]
                            && l.address !in Held(before, st.inserted, l.subnet))
  {
    if u in st.pools && st.pools[u] != [] && insertOk {
      var l := Lease(u, st.pools[u][0].lo);
      FirstIsLeast(st.pools[u]);
      assert HwStep(st, u, insertOk).planned == st.planned + [l];
    }
  }

  lemma {:induction false} HardwareGivesUnheld(before: map<Uuid, set<int>>, st: State, ports: seq<Uuid>, ok: seq<bool>)
    requires |ok| == |ports| && Inv(before, None, st.(last := None))
    ensures var end := HwSteps(st, ports, ok);
            && st.planned <= end.planned && Unheld(before, st.inserted, NewlyPlanned(st, end))
            && Pairwise(NewlyPlanned(st, end))
    decreases ports
  {
    if ports != [] {
      var next, end := HwStep(st, ports[0], ok[0]), HwSteps(st, ports, ok);
      assert Inv(before, None, next.(last := None)) by {
        HwStepKeepsInv(before, st, ports[0], ok[0]);
      }
      HwGivesUnheld(before, st, ports[0], ok[0]);
      HardwareGivesUnheld(before, next, ports[1..], ok[1..]);
      if next.planned != st.planned {
        var l :| next.planned == st.planned + [l] && next.inserted == st.inserted + [l]
                 && l.address !in Held(before, st.inserted, l.subnet);
        OneMoreHardware(before, st, next, end, l);
      }
    }
  }

  lemma OneMoreHardware(before: map<Uuid, set<int>>, st: State, next: State, end: State, l: Lease)
    requires next.planned == st.planned + [l] && next.inserted == st.inserted + [l]
    requires l.address !in Held(before, st.inserted, l.subnet) && next.planned <= end.planned
    requires Unheld(before, next.inserted, NewlyPlanned(next, end)) && Pairwise(NewlyPlanned(next, end))
    ensures st.planned <= end.planned
    ensures Unheld(before, st.inserted, NewlyPlanned(st, end)) && Pairwise(NewlyPlanned(st, end))
  {
    var more := NewlyPlanned(next, end);
    assert NewlyPlanned(st, end) == [l] + more && l in next.inserted;
    PrependUnheld(before, st.inserted, next.inserted, l, more);
    UnheldExcludes(before, next.inserted, more, l);
    PrependPairwise(l, more);
  }

  lemma PrependPairwise(l: Lease, more: seq<Lease>)
    requires l !in more && Pairwise(more)
    ensures Pairwise([l] + more)
  {
  }

  ghost predicate Pairwise<T>(xs: seq<T>) {
    forall i, j | 0 <= i < j < |xs| :: xs[i] != xs[j]
  }

  /** Over a whole safe iteration, targets or not: the ports pushed to the data plane have
      addresses of their own if and only if no address that a failed insert gave back is
      given again, to a node or to a hardware port. */
  lemma {:induction false} PlannedDistinctIffReturnedOnce(before: map<Uuid, set<int>>, s: Uuid, start: State, nodes: seq<NewNode>,
                                                          hwPorts: seq<Uuid>, nodeOk: seq<bool>, hwOk: seq<bool>)
    requires |nodeOk| == |nodes| && |hwOk| == |hwPorts| && start.planned == []
    requires s in start.pools && Inv(before, Some(s), start) && SafeRun(before, Some(s), start, nodes, nodeOk)
    ensures var vms := NodeSteps(Some(s), start, nodes, nodeOk);
            && vms.Running?
            && var planned := HwSteps(vms.state, hwPorts, hwOk).planned;
            && |planned| >= |nodes|
            && (NoDuplicates(before, planned) <==> ReturnedOnce(planned, nodeOk))
  {
    SafeRunKeepsInv(before, Some(s), start, nodes, nodeOk);
    NodesGiveUnheld(before, s, start, nodes, nodeOk);
    var mid := NodeSteps(Some(s), start, nodes, nodeOk).state;
    ForgetLast(before, Some(s), mid);
    HardwareGivesUnheld(before, mid, hwPorts, hwOk);
    var end := HwSteps(mid, hwPorts, hwOk);
    assert NewlyPlanned(start, mid) == mid.planned;
    assert end.planned == mid.planned + NewlyPlanned(mid, end);
    JoinGiven(before, mid.planned, NewlyPlanned(mid, end), start.inserted, mid.inserted, nodeOk);
  }

  lemma JoinGiven(before: map<Uuid, set<int>>, a: seq<Lease>, b: seq<Lease>, first: seq<Lease>, inserted: seq<Lease>, ok: seq<bool>)
    requires |a| == |ok| && first <= inserted
    requires Unheld(before, first, a) && InsertedOnce(a, ok) && forall i | 0 <= i < |ok| && ok[i] :: a[i] in inserted
    requires Unheld(before, inserted, b) && Pairwise(b)
    ensures NoDuplicates(before, a + b) <==> ReturnedOnce(a + b, ok)
  {
    var all := a + b;
    forall l | l in all && l.subnet in before
      ensures l.address !in before[l.subnet]
    {
      if l in a {
        assert l.address !in Held(before, first, l.subnet);
      } else {
        assert l.address !in Held(before, inserted, l.subnet);
      }
    }
    if ReturnedOnce(all, ok) {
      forall i, j | 0 <= i < j < |all|
        ensures all[i] != all[j]
      {
        if i < |a| <= j && ok[i] {
          assert all[j] == b[j - |a|] && all[j] in b && a[i] in inserted;
          assert all[i].address in Held(before, inserted, all[i].subnet);
        } else if |a| <= i {
          assert all[i] == b[i - |a|] && all[j] == b[j - |a|];
        } else if ok[i] {
          assert all[i] == a[i] && all[j] == a[j];
        }
      }
    }
  }
}
