/**
 The first pass of the scheduler: unscheduled nodes take idle machines of their own type.
 */
module MachineScheduling {
  import opened Common
  import opened Keyed
  import opened Selection

  datatype NodeType = VM | HW

  datatype Node = Node(uuid: Uuid, kind: NodeType, cores: int, ram: int)

  datatype Machine = Machine(uuid: Uuid, kind: NodeType, cores: int, ram: int)

  type MachinePolicy = Policy<Node, Machine>

  /** What becomes of a node: bound to a machine, left for pool placement, or in error. */
  datatype Outcome = Bound(machine: Machine) | ToPool | Failed

  function MachineKey(m: Machine): Uuid { m.uuid }

  /** The idle machines of each type. */
  datatype Idle = Idle(hw: seq<Machine>, vm: seq<Machine>) {
    function Of(k: NodeType): seq<Machine> {
      if k == HW then hw else vm
    }

    function Remove(m: Machine, k: NodeType): Idle {
      if k == HW then this.(hw := Without(hw, MachineKey, m.uuid)) else this.(vm := Without(vm, MachineKey, m.uuid))
    }
  }

  function OutcomeOf(policy: MachinePolicy, idle: Idle, n: Node): Outcome {
    var c := Chosen(policy, n, idle.Of(n.kind));
    if c.Some? then Bound(c.value) else if n.kind == HW then Failed else ToPool
  }

  function IdleAfter(policy: MachinePolicy, idle: Idle, n: Node): Idle {
    var o := OutcomeOf(policy, idle, n);
    if o.Bound? then idle.Remove(o.machine, n.kind) else idle
  }

  function IdleAfterAll(policy: MachinePolicy, idle: Idle, nodes: seq<Node>): Idle {
    if nodes == [] then idle
    else IdleAfter(policy, IdleAfterAll(policy, idle, nodes[..|nodes| - 1]), nodes[|nodes| - 1])
  }

  function Outcomes(policy: MachinePolicy, idle: Idle, nodes: seq<Node>): (r: seq<Outcome>)
    ensures |r| == |nodes|
  {
    if nodes == [] then []
    else
      var k := |nodes| - 1;
      Outcomes(policy, idle, nodes[..k]) + [OutcomeOf(policy, IdleAfterAll(policy, idle, nodes[..k]), nodes[k])]
  }

  /** The nodes left for pool placement, in order. */
  function LeftForPools(nodes: seq<Node>, outcomes: seq<Outcome>): seq<Node>
    requires |nodes| == |outcomes|
  {
    if nodes == [] then []
    else
      var k := |nodes| - 1;
      LeftForPools(nodes[..k], outcomes[..k]) + if outcomes[k] == ToPool then [nodes[k]] else []
  }

  ghost predicate DistinctIdle(idle: Idle) {
    Distinct(idle.hw, MachineKey) && Distinct(idle.vm, MachineKey)
  }

  /** The two lists hold machines of their own type. */
  ghost predicate Sorted(idle: Idle) {
    (forall m | m in idle.hw :: m.kind == HW) && (forall m | m in idle.vm :: m.kind == VM)
  }

  /** One node: it is bound to the first best of the machines of its type that pass, and
      stays unbound exactly when none passes. */
  lemma OutcomeIsBest(policy: MachinePolicy, idle: Idle, n: Node)
    requires Lawful(policy)
    ensures var o, passed := OutcomeOf(policy, idle, n), Passed(policy, n, idle.Of(n.kind));
            && (o.Bound? <==> passed != [])
            && (o == ToPool ==> n.kind == VM) && (o == Failed ==> n.kind == HW)
            && (o.Bound? ==>
                  && o.machine in idle.Of(n.kind)
                  && exists i: nat :: IsBest(policy.weighters, passed, i) && passed[i] == o.machine)
  {
    ChosenIsBest(policy, n, idle.Of(n.kind));
  }

  /** What a node leaves behind. */
  lemma OneNodePartition(policy: MachinePolicy, idle: Idle, n: Node)
    requires Lawful(policy) && DistinctIdle(idle) && Sorted(idle)
    ensures var o, idle' := OutcomeOf(policy, idle, n), IdleAfter(policy, idle, n);
            && DistinctIdle(idle') && Sorted(idle')
            && Leftover(idle, idle', [o])
            && (o.Bound? ==> o.machine in idle.Of(n.kind) && o.machine.kind == n.kind)
  {
    OutcomeIsBest(policy, idle, n);
    var o := OutcomeOf(policy, idle, n);
    if o.Bound? {
      var ms := idle.Of(n.kind);
      WithoutElements(ms, MachineKey, o.machine.uuid);
      TableHolds(ms, MachineKey);
      forall m
        ensures m in Without(ms, MachineKey, o.machine.uuid) <==> m in ms && m != o.machine
      {
      }
    }
  }

  /** Everyone bound has a machine of its own type that was idle. */
  ghost predicate BoundToOwnType(idle: Idle, nodes: seq<Node>, os: seq<Outcome>)
    requires |os| == |nodes|
  {
    forall i | 0 <= i < |nodes| && os[i].Bound? :: os[i].machine in idle.Of(nodes[i].kind) && os[i].machine.kind == nodes[i].kind
  }

  ghost predicate BoundOnce(os: seq<Outcome>) {
    forall i, j | 0 <= i < j < |os| && os[i].Bound? :: os[i] != os[j]
  }

  /** What is idle afterwards was idle before and is bound to nobody. */
  ghost predicate Leftover(idle: Idle, idle': Idle, os: seq<Outcome>) {
    LeftoverOf(idle.hw, idle'.hw, os) && LeftoverOf(idle.vm, idle'.vm, os)
  }

  ghost predicate LeftoverOf(ms: seq<Machine>, ms': seq<Machine>, os: seq<Outcome>) {
    forall m :: m in ms' <==> m in ms && Bound(m) !in os
  }

  /** Only VM nodes go on to the pools, only HW nodes end in error. */
  ghost predicate RightKinds(nodes: seq<Node>, os: seq<Outcome>)
    requires |os| == |nodes|
  {
    forall i | 0 <= i < |nodes| :: (os[i] == ToPool ==> nodes[i].kind == VM) && (os[i] == Failed ==> nodes[i].kind == HW)
  }

  /** Over all nodes: the unscheduled nodes and the idle machines are partitioned. */
  lemma {:induction false} NodesArePartitioned(policy: MachinePolicy, idle: Idle, nodes: seq<Node>)
    requires Lawful(policy) && DistinctIdle(idle) && Sorted(idle)
    ensures var os, idle' := Outcomes(policy, idle, nodes), IdleAfterAll(policy, idle, nodes);
            Partitioned(idle, idle', nodes, os)
  {
    if nodes != [] {
      var k := |nodes| - 1;
      NodesArePartitioned(policy, idle, nodes[..k]);
      assert nodes == nodes[..k] + [nodes[k]];
      ExtendByNode(policy, idle, IdleAfterAll(policy, idle, nodes[..k]), nodes[..k],
                   Outcomes(policy, idle, nodes[..k]), nodes[k]);
    }
  }

  ghost predicate Partitioned(idle: Idle, idle': Idle, nodes: seq<Node>, os: seq<Outcome>)
    requires |os| == |nodes|
  {
    && DistinctIdle(idle') && Sorted(idle')
    && BoundToOwnType(idle, nodes, os) && BoundOnce(os)
    && Leftover(idle, idle', os) && RightKinds(nodes, os)
  }

  lemma ExtendByNode(policy: MachinePolicy, idle: Idle, mid: Idle, nodes: seq<Node>, os: seq<Outcome>, n: Node)
    requires Lawful(policy) && |os| == |nodes| && Partitioned(idle, mid, nodes, os)
    ensures Partitioned(idle, IdleAfter(policy, mid, n), nodes + [n], os + [OutcomeOf(policy, mid, n)])
  {
    OneNodePartition(policy, mid, n);
    OutcomeIsBest(policy, mid, n);
    ExtendPartition(idle, mid, IdleAfter(policy, mid, n), nodes, os, n, OutcomeOf(policy, mid, n));
  }

  lemma ExtendPartition(idle: Idle, mid: Idle, idle': Idle, nodes: seq<Node>, os: seq<Outcome>, n: Node, o: Outcome)
    requires |os| == |nodes|
    requires BoundToOwnType(idle, nodes, os) && BoundOnce(os) && Leftover(idle, mid, os) && RightKinds(nodes, os)
    requires o.Bound? ==> o.machine in mid.Of(n.kind) && o.machine.kind == n.kind
    requires (o == ToPool ==> n.kind == VM) && (o == Failed ==> n.kind == HW)
    requires Leftover(mid, idle', [o])
    ensures var nodes', os' := nodes + [n], os + [o];
            BoundToOwnType(idle, nodes', os') && BoundOnce(os') && Leftover(idle, idle', os') && RightKinds(nodes', os')
  {
    var os' := os + [o];
    forall i, j | 0 <= i < j < |os'| && os'[i].Bound?
      ensures os'[i] != os'[j]
    {
      if j == |os| {
        assert os[i] in os;
      }
    }
    LeftoversCompose(idle.hw, mid.hw, idle'.hw, os, [o]);
    LeftoversCompose(idle.vm, mid.vm, idle'.vm, os, [o]);
  }

  lemma LeftoversCompose(a: seq<Machine>, b: seq<Machine>, c: seq<Machine>, os: seq<Outcome>, ps: seq<Outcome>)
    requires LeftoverOf(a, b, os) && LeftoverOf(b, c, ps)
    ensures LeftoverOf(a, c, os + ps)
  {
  }

  /** Exactly the nodes with this outcome are passed on. */
  lemma {:induction false} LeftAreToPool(nodes: seq<Node>, outcomes: seq<Outcome>)
    requires |nodes| == |outcomes|
    ensures forall n :: n in LeftForPools(nodes, outcomes) <==> exists i :: 0 <= i < |nodes| && nodes[i] == n && outcomes[i] == ToPool
  {
    if nodes != [] {
      var k := |nodes| - 1;
      LeftAreToPool(nodes[..k], outcomes[..k]);
      forall n | n in LeftForPools(nodes, outcomes)
        ensures exists i :: 0 <= i < |nodes| && nodes[i] == n && outcomes[i] == ToPool
      {
        if n in LeftForPools(nodes[..k], outcomes[..k]) {
          var i :| 0 <= i < k && nodes[..k][i] == n && outcomes[..k][i] == ToPool;
          assert nodes[i] == n;
        } else {
          assert nodes[k] == n;
        }
      }
      forall i | 0 <= i < |nodes| && outcomes[i] == ToPool
        ensures nodes[i] in LeftForPools(nodes, outcomes)
      {
        if i < k {
          assert nodes[..k][i] == nodes[i] && outcomes[..k][i] == ToPool;
        }
      }
    }
  }

  lemma OneMoreNode(policy: MachinePolicy, idle: Idle, nodes: seq<Node>, k: nat)
    requires k < |nodes|
    ensures var mid := IdleAfterAll(policy, idle, nodes[..k]);
            && IdleAfterAll(policy, idle, nodes[..k + 1]) == IdleAfter(policy, mid, nodes[k])
            && Outcomes(policy, idle, nodes[..k + 1]) == Outcomes(policy, idle, nodes[..k]) + [OutcomeOf(policy, mid, nodes[k])]
  {
    assert nodes[..k + 1][..k] == nodes[..k];
  }

  lemma OneMoreLeft(nodes: seq<Node>, outcomes: seq<Outcome>, k: nat, o: Outcome)
    requires k < |nodes| && |outcomes| == k
    ensures LeftForPools(nodes[..k + 1], outcomes + [o]) ==
            LeftForPools(nodes[..k], outcomes) + if o == ToPool then [nodes[k]] else []
  {
    assert nodes[..k + 1][..k] == nodes[..k] && (outcomes + [o])[..k] == outcomes;
  }

  /** `_schedule_on_existing_machines`; a failed save is only logged. */
  method ScheduleOnExistingMachines(policy: MachinePolicy, nodes: seq<Node>, machines: seq<Machine>)
    returns (outcomes: seq<Outcome>, vms: seq<Node>)
    requires Lawful(policy)
    ensures outcomes == Outcomes(policy, Split(machines), nodes)
    ensures vms == LeftForPools(nodes, outcomes)
    ensures Distinct(machines, MachineKey) ==>
              Partitioned(Split(machines), IdleAfterAll(policy, Split(machines), nodes), nodes, outcomes)
  {
    var idle := Split(machines);
    ghost var start := idle;
    outcomes, vms := [], [];
    for k := 0 to |nodes|
      invariant idle == IdleAfterAll(policy, start, nodes[..k])
      invariant outcomes == Outcomes(policy, start, nodes[..k])
      invariant vms == LeftForPools(nodes[..k], outcomes)
    {
      OneMoreNode(policy, start, nodes, k);
      var n := nodes[k];
      var c := Choose(policy, n, idle.Of(n.kind));
      var o := if c.Some? then Bound(c.value) else if n.kind == HW then Failed else ToPool;
      OneMoreLeft(nodes, outcomes, k, o);
      outcomes := outcomes + [o];
      if o == ToPool {
        vms := vms + [n];
      } else if o.Bound? {
        idle := idle.Remove(o.machine, n.kind);
      }
    }
    assert nodes[..|nodes|] == nodes;
    if Distinct(machines, MachineKey) {
      SplitIsSorted(machines);
      NodesArePartitioned(policy, start, nodes);
    }
  }

  /** The idle machines by type. */
  function Split(machines: seq<Machine>): Idle {
    if machines == [] then Idle([], [])
    else
      var k := |machines| - 1;
      var idle := Split(machines[..k]);
      if machines[k].kind == HW then idle.(hw := idle.hw + [machines[k]])
      else idle.(vm := idle.vm + [machines[k]])
  }

  lemma {:induction false} SplitHolds(machines: seq<Machine>)
    ensures forall m :: m in Split(machines).hw <==> m in machines && m.kind == HW
    ensures forall m :: m in Split(machines).vm <==> m in machines && m.kind == VM
  {
    if machines != [] {
      var k := |machines| - 1;
      SplitHolds(machines[..k]);
      assert machines == machines[..k] + [machines[k]];
    }
  }

  lemma {:induction false} SplitIsSorted(machines: seq<Machine>)
    requires Distinct(machines, MachineKey)
    ensures DistinctIdle(Split(machines)) && Sorted(Split(machines))
    ensures forall k, m :: m in Split(machines).Of(k) <==> m in machines && m.kind == k
  {
    SplitHolds(machines);
    if machines != [] {
      var k := |machines| - 1;
      var idle, last := Split(machines[..k]), machines[k];
      SplitIsSorted(machines[..k]);
      forall m | m in idle.Of(last.kind)
        ensures MachineKey(m) != MachineKey(last)
      {
        var i :| 0 <= i < k && machines[..k][i] == m;
        assert MachineKey(machines[i]) != MachineKey(machines[k]);
      }
      DistinctAppend(idle.Of(last.kind), MachineKey, last);
    }
  }
}
