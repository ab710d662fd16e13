/**
 One iteration of the compute scheduler over the machine pools: nodes are placed one after
 the other, each seeing what the earlier ones left, then the volumes of placed nodes.
 */
module Scheduler {
  import opened Common
  import opened Selection
  import opened PoolPlacement

  type PoolPolicy = Policy<Node, Pool>

  // ---- One node ----

  function PoolAfterNode(p: Pool, n: Node): Pool
    requires n.volumes != [] ==> p.storage != []
  {
    PoolAfterVolumes(p, n.volumes).(cores := p.cores - n.cores, ram := p.ram - n.ram)
  }

  ghost predicate DistinctPools(pools: seq<Pool>) {
    forall i, j | 0 <= i < j < |pools| :: pools[i].uuid != pools[j].uuid
  }

  function IndexOf(pools: seq<Pool>, u: Uuid): (i: nat)
    ensures i <= |pools|
    ensures i < |pools| ==> pools[i].uuid == u
    ensures i == |pools| ==> forall p | p in pools :: p.uuid != u
  {
    if pools == [] then 0 else if pools[0].uuid == u then 0 else 1 + IndexOf(pools[1..], u)
  }

  /** Where the node goes: nowhere when no pool passes, or when the chosen pool has no
      storage for its volumes. */
  function Target(policy: PoolPolicy, pools: seq<Pool>, n: Node): (r: Option<nat>)
    ensures r.Some? ==> r.value < |pools| && (n.volumes != [] ==> pools[r.value].storage != [])
  {
    var c := Chosen(policy, n, pools);
    if c.None? then None
    else
      var i := IndexOf(pools, c.value.uuid);
      if i < |pools| && (n.volumes == [] || pools[i].storage != []) then Some(i) else None
  }

  function AfterNode(policy: PoolPolicy, pools: seq<Pool>, n: Node): (r: seq<Pool>)
    ensures |r| == |pools|
  {
    var t := Target(policy, pools, n);
    if t.None? then pools else pools[t.value := PoolAfterNode(pools[t.value], n)]
  }

  function AfterNodes(policy: PoolPolicy, pools: seq<Pool>, nodes: seq<Node>): (r: seq<Pool>)
    ensures |r| == |pools|
  {
    if nodes == [] then pools
    else AfterNode(policy, AfterNodes(policy, pools, nodes[..|nodes| - 1]), nodes[|nodes| - 1])
  }

  /** The pool index each node went to. */
  function Placements(policy: PoolPolicy, pools: seq<Pool>, nodes: seq<Node>): (r: seq<Option<nat>>)
    ensures |r| == |nodes|
  {
    if nodes == [] then []
    else
      var k := |nodes| - 1;
      Placements(policy, pools, nodes[..k]) + [Target(policy, AfterNodes(policy, pools, nodes[..k]), nodes[k])]
  }

  // ---- Conservation ----

  function CoresAt(nodes: seq<Node>, placed: seq<Option<nat>>, i: nat): int
    requires |placed| == |nodes|
  {
    if nodes == [] then 0
    else
      var k := |nodes| - 1;
      CoresAt(nodes[..k], placed[..k], i) + if placed[k] == Some(i) then nodes[k].cores else 0
  }

  function RamAt(nodes: seq<Node>, placed: seq<Option<nat>>, i: nat): int
    requires |placed| == |nodes|
  {
    if nodes == [] then 0
    else
      var k := |nodes| - 1;
      RamAt(nodes[..k], placed[..k], i) + if placed[k] == Some(i) then nodes[k].ram else 0
  }

  function VolumesAt(nodes: seq<Node>, placed: seq<Option<nat>>, i: nat): seq<Volume>
    requires |placed| == |nodes|
  {
    if nodes == [] then []
    else
      var k := |nodes| - 1;
      VolumesAt(nodes[..k], placed[..k], i) + if placed[k] == Some(i) then nodes[k].volumes else []
  }

  /** Each pool loses exactly the cores and memory of the nodes placed there, and went
      through exactly their volumes, in order. */
  lemma {:induction false} NodesConserve(policy: PoolPolicy, pools: seq<Pool>, nodes: seq<Node>, i: nat)
    requires i < |pools|
    ensures var placed, p := Placements(policy, pools, nodes), AfterNodes(policy, pools, nodes)[i];
            && p.uuid == pools[i].uuid
            && p.cores == pools[i].cores - CoresAt(nodes, placed, i)
            && p.ram == pools[i].ram - RamAt(nodes, placed, i)
            && var vs := VolumesAt(nodes, placed, i);
            && (vs != [] ==> pools[i].storage != [])
            && p.storage == PoolAfterVolumes(pools[i], vs).storage
            && p.spares == PoolAfterVolumes(pools[i], vs).spares
  {
    if nodes != [] {
      var k := |nodes| - 1;
      NodesConserve(policy, pools, nodes[..k], i);
      var placed := Placements(policy, pools, nodes);
      assert placed[..k] == Placements(policy, pools, nodes[..k]);
      if placed[k] == Some(i) {
        var q := AfterNodes(policy, pools, nodes[..k])[i];
        var vs := VolumesAt(nodes[..k], placed[..k], i);
        OnlyVolumesMatter(q, PoolAfterVolumes(pools[i], vs), nodes[k].volumes);
        VolumesCompose(pools[i], vs, nodes[k].volumes);
      } else {
        assert VolumesAt(nodes, placed, i) == VolumesAt(nodes[..k], placed[..k], i);
      }
    }
  }

  lemma {:induction false} VolumesCompose(p: Pool, us: seq<Volume>, vs: seq<Volume>)
    requires us + vs != [] ==> p.storage != []
    ensures PoolAfterVolumes(p, us + vs) == PoolAfterVolumes(PoolAfterVolumes(p, us), vs)
  {
    if vs == [] {
      assert us + vs == us;
    } else {
      var k := |vs| - 1;
      assert (us + vs)[..|us| + k] == us + vs[..k];
      VolumesCompose(p, us, vs[..k]);
    }
  }

  /** Cores and memory play no part in placing volumes. */
  lemma {:induction false} OnlyVolumesMatter(p: Pool, q: Pool, vs: seq<Volume>)
    requires p.storage == q.storage && p.spares == q.spares
    requires vs != [] ==> p.storage != []
    ensures PoolAfterVolumes(p, vs).storage == PoolAfterVolumes(q, vs).storage
    ensures PoolAfterVolumes(p, vs).spares == PoolAfterVolumes(q, vs).spares
  {
    if vs != [] {
      OnlyVolumesMatter(p, q, vs[..|vs| - 1]);
    }
  }

  // ---- Choice ----

  predicate HasRoom(n: Node, p: Pool) {
    p.cores >= n.cores && p.ram >= n.ram
  }

  /** `CoresRamAvailableFilter`. */
  function CoresRamAvailable(n: Node, pools: seq<Pool>): seq<Pool> {
    if pools == [] then []
    else
      var k := |pools| - 1;
      CoresRamAvailable(n, pools[..k]) + if HasRoom(n, pools[k]) then [pools[k]] else []
  }

  /** A pool passes if and only if it has at least the node's cores and memory left. */
  lemma {:induction false} CoresRamAvailableKeeps(n: Node, pools: seq<Pool>)
    ensures forall p :: p in CoresRamAvailable(n, pools) <==> p in pools && n.cores <= p.cores && n.ram <= p.ram
  {
    if pools != [] {
      var k := |pools| - 1;
      CoresRamAvailableKeeps(n, pools[..k]);
      assert pools == pools[..k] + [pools[k]];
    }
  }

  /** A node goes to a pool that passes every filter and has the first maximal summed weight
      of those that do; it stays unplaced exactly when none passes or the best one lacks
      storage for its volumes. */
  lemma NodeGoesToBestPool(policy: PoolPolicy, pools: seq<Pool>, n: Node)
    requires Lawful(policy) && DistinctPools(pools)
    ensures var passed := Passed(policy, n, pools);
            var t := Target(policy, pools, n);
            if t.Some? then
              exists i: nat :: IsBest(policy.weighters, passed, i) && passed[i] == pools[t.value]
            else
              passed == [] || (n.volumes != [] &&
                exists i: nat :: IsBest(policy.weighters, passed, i) && passed[i] in pools && passed[i].storage == [])
  {
    ChosenIsBest(policy, n, pools);
    var c := Chosen(policy, n, pools);
    if c.Some? {
      var j :| 0 <= j < |pools| && pools[j] == c.value;
      var i := IndexOf(pools, c.value.uuid);
      assert i == j;
    }
  }

  ghost predicate NoneOverused(pools: seq<Pool>) {
    forall p | p in pools :: p.cores >= 0 && p.ram >= 0
  }

  /** With the filter for available cores and memory in the chain, no run overuses a pool. */
  lemma {:induction false} NeverOverused(policy: PoolPolicy, pools: seq<Pool>, nodes: seq<Node>)
    requires Lawful(policy) && CoresRamAvailable in policy.filters
    requires DistinctPools(pools) && NoneOverused(pools)
    ensures DistinctPools(AfterNodes(policy, pools, nodes)) && NoneOverused(AfterNodes(policy, pools, nodes))
  {
    if nodes != [] {
      var k := |nodes| - 1;
      NeverOverused(policy, pools, nodes[..k]);
      NodeLeavesRoom(policy, AfterNodes(policy, pools, nodes[..k]), nodes[k]);
    }
  }

  lemma NodeLeavesRoom(policy: PoolPolicy, pools: seq<Pool>, n: Node)
    requires Lawful(policy) && CoresRamAvailable in policy.filters
    requires DistinctPools(pools) && NoneOverused(pools)
    ensures DistinctPools(AfterNode(policy, pools, n)) && NoneOverused(AfterNode(policy, pools, n))
  {
    var t := Target(policy, pools, n);
    if t.Some? {
      NodeGoesToBestPool(policy, pools, n);
      var i: nat :| IsBest(policy.weighters, Passed(policy, n, pools), i) && Passed(policy, n, pools)[i] == pools[t.value];
      forall m, ds: seq<Pool>, c | c in CoresRamAvailable(m, ds)
        ensures HasRoom(m, c)
      {
        CoresRamAvailableKeeps(m, ds);
      }
      FilteredFits(policy.filters, HasRoom, n, pools);
      assert HasRoom(n, pools[t.value]);
      var pools' := AfterNode(policy, pools, n);
      forall p | p in pools'
        ensures p.cores >= 0 && p.ram >= 0
      {
        var j :| 0 <= j < |pools'| && pools'[j] == p;
        assert j != t.value ==> pools'[j] == pools[j];
      }
    }
  }

  // ---- Volumes of nodes that already have a machine ----

  datatype VolumeRequest = VolumeRequest(volume: Volume, node: Option<Uuid>)

  /** The pool of the machine of the volume's node, if all of these are known. */
  function RequestTarget(pools: seq<Pool>, machines: map<Uuid, Option<Uuid>>, r: VolumeRequest): (t: Option<nat>)
    ensures t.Some? ==> t.value < |pools|
  {
    if r.node.None? || r.node.value !in machines || machines[r.node.value].None? then None
    else
      var i := IndexOf(pools, machines[r.node.value].value);
      if i < |pools| then Some(i) else None
  }

  /** A pool without storage ends the loop: the handler of the failed placement fails itself. */
  function AfterRequests(pools: seq<Pool>, machines: map<Uuid, Option<Uuid>>, rs: seq<VolumeRequest>): (ps: seq<Pool>)
    ensures |ps| == |pools|
    decreases rs
  {
    if rs == [] then pools
    else
      var t := RequestTarget(pools, machines, rs[0]);
      if t.None? then AfterRequests(pools, machines, rs[1..])
      else if pools[t.value].storage == [] then pools
      else AfterRequests(pools[t.value := PoolAfterVolume(pools[t.value], rs[0].volume)], machines, rs[1..])
  }

  function RequestsAt(pools: seq<Pool>, machines: map<Uuid, Option<Uuid>>, rs: seq<VolumeRequest>, i: nat): seq<Volume>
    requires i < |pools|
    decreases rs
  {
    if rs == [] then []
    else
      var t := RequestTarget(pools, machines, rs[0]);
      if t.None? then RequestsAt(pools, machines, rs[1..], i)
      else if pools[t.value].storage == [] then []
      else
        (if t.value == i then [rs[0].volume] else [])
        + RequestsAt(pools[t.value := PoolAfterVolume(pools[t.value], rs[0].volume)], machines, rs[1..], i)
  }

  lemma {:induction false} RequestsArePlacements(pools: seq<Pool>, machines: map<Uuid, Option<Uuid>>, rs: seq<VolumeRequest>, i: nat)
    requires i < |pools|
    ensures var vs := RequestsAt(pools, machines, rs, i);
            && (vs != [] ==> pools[i].storage != [])
            && AfterRequests(pools, machines, rs)[i] == PoolAfterVolumes(pools[i], vs)
    decreases rs
  {
    if rs != [] {
      var t := RequestTarget(pools, machines, rs[0]);
      if t.None? {
        RequestsArePlacements(pools, machines, rs[1..], i);
      } else if pools[t.value].storage != [] {
        var v := rs[0].volume;
        var next := pools[t.value := PoolAfterVolume(pools[t.value], v)];
        RequestsArePlacements(next, machines, rs[1..], i);
        var rest := RequestsAt(next, machines, rs[1..], i);
        if t.value == i {
          VolumesCompose(pools[i], [v], rest);
          assert [v][..0] == [];
        } else {
          assert [] + rest == rest;
        }
      }
    }
  }

  /** The volume's node has a machine in this pool. */
  ghost predicate GoesTo(pools: seq<Pool>, machines: map<Uuid, Option<Uuid>>, r: VolumeRequest, i: nat) {
    i < |pools| && r.node.Some? && r.node.value in machines && machines[r.node.value] == Some(pools[i].uuid)
  }

  lemma RequestTargetIs(pools: seq<Pool>, machines: map<Uuid, Option<Uuid>>, r: VolumeRequest)
    requires DistinctPools(pools)
    ensures forall i: nat :: RequestTarget(pools, machines, r) == Some(i) <==> GoesTo(pools, machines, r, i)
  {
    if r.node.Some? && r.node.value in machines && machines[r.node.value].Some? {
      var u := machines[r.node.value].value;
      var k := IndexOf(pools, u);
      forall i: nat | i < |pools| && pools[i].uuid == u
        ensures i == k
      {
        assert pools[i] in pools;
      }
    }
  }

  /** The volumes that go to one pool, in order. */
  ghost function Going(pools: seq<Pool>, machines: map<Uuid, Option<Uuid>>, rs: seq<VolumeRequest>, i: nat): seq<Volume>
    decreases rs
  {
    if rs == [] then []
    else (if GoesTo(pools, machines, rs[0], i) then [rs[0].volume] else []) + Going(pools, machines, rs[1..], i)
  }

  /** The first `n` requests go to pools with storage, or nowhere. */
  ghost predicate Served(pools: seq<Pool>, machines: map<Uuid, Option<Uuid>>, rs: seq<VolumeRequest>, n: nat) {
    n <= |rs| && forall k, i: nat | 0 <= k < n && GoesTo(pools, machines, rs[k], i) :: pools[i].storage != []
  }

  /** All requests are served, or the next one goes to a pool without storage. */
  ghost predicate Ends(pools: seq<Pool>, machines: map<Uuid, Option<Uuid>>, rs: seq<VolumeRequest>, n: nat)
    requires n <= |rs|
  {
    n == |rs| || exists i: nat :: GoesTo(pools, machines, rs[n], i) && pools[i].storage == []
  }

  /** Each pool gets the volumes of the nodes that have a machine there, in order, up to the
      first volume whose pool has no storage: that one ends the loop for all pools. */
  lemma {:induction false} RequestsReach(pools: seq<Pool>, machines: map<Uuid, Option<Uuid>>, rs: seq<VolumeRequest>, n: nat, i: nat)
    requires DistinctPools(pools) && i < |pools| && Served(pools, machines, rs, n) && Ends(pools, machines, rs, n)
    ensures RequestsAt(pools, machines, rs, i) == Going(pools, machines, rs[..n], i)
    decreases rs
  {
    if rs != [] {
      var next := AfterFirst(pools, machines, rs);
      if n == 0 {
        NothingServed(pools, machines, rs, i);
      } else {
        FirstServed(pools, machines, rs, n, i);
        assert DistinctPools(next) && Served(next, machines, rs[1..], n - 1) && Ends(next, machines, rs[1..], n - 1) by {
          SamePools(pools, next);
          ServedNext(pools, next, machines, rs, n);
        }
        RequestsReach(next, machines, rs[1..], n - 1, i);
        GoingSame(pools, next, machines, rs[1..][..n - 1], i);
        GoingFirst(pools, machines, rs, n, i);
      }
    }
  }

  /** The pools after the first request, if it is served. */
  ghost function AfterFirst(pools: seq<Pool>, machines: map<Uuid, Option<Uuid>>, rs: seq<VolumeRequest>): (next: seq<Pool>)
    requires rs != []
    ensures Alike(pools, next)
  {
    var t := RequestTarget(pools, machines, rs[0]);
    if t.Some? && pools[t.value].storage != [] then pools[t.value := PoolAfterVolume(pools[t.value], rs[0].volume)] else pools
  }

  lemma NothingServed(pools: seq<Pool>, machines: map<Uuid, Option<Uuid>>, rs: seq<VolumeRequest>, i: nat)
    requires DistinctPools(pools) && i < |pools| && rs != [] && Ends(pools, machines, rs, 0)
    ensures RequestsAt(pools, machines, rs, i) == [] == Going(pools, machines, rs[..0], i)
  {
    RequestTargetIs(pools, machines, rs[0]);
  }

  lemma FirstServed(pools: seq<Pool>, machines: map<Uuid, Option<Uuid>>, rs: seq<VolumeRequest>, n: nat, i: nat)
    requires DistinctPools(pools) && i < |pools| && 0 < n <= |rs| && Served(pools, machines, rs, n)
    ensures RequestsAt(pools, machines, rs, i) ==
            (if GoesTo(pools, machines, rs[0], i) then [rs[0].volume] else [])
            + RequestsAt(AfterFirst(pools, machines, rs), machines, rs[1..], i)
  {
    RequestTargetIs(pools, machines, rs[0]);
    var t := RequestTarget(pools, machines, rs[0]);
    assert t.Some? ==> GoesTo(pools, machines, rs[0], t.value) && pools[t.value].storage != [];
  }

  lemma GoingFirst(pools: seq<Pool>, machines: map<Uuid, Option<Uuid>>, rs: seq<VolumeRequest>, n: nat, i: nat)
    requires 0 < n <= |rs|
    ensures Going(pools, machines, rs[..n], i) ==
            (if GoesTo(pools, machines, rs[0], i) then [rs[0].volume] else []) + Going(pools, machines, rs[1..][..n - 1], i)
  {
    assert rs[..n][1..] == rs[1..][..n - 1];
  }

  lemma ServedNext(pools: seq<Pool>, next: seq<Pool>, machines: map<Uuid, Option<Uuid>>, rs: seq<VolumeRequest>, n: nat)
    requires 0 < n <= |rs| && Alike(pools, next)
    requires Served(pools, machines, rs, n) && Ends(pools, machines, rs, n)
    ensures Served(next, machines, rs[1..], n - 1) && Ends(next, machines, rs[1..], n - 1)
  {
    forall k, i: nat | 0 <= k < n - 1 && GoesTo(next, machines, rs[1..][k], i)
      ensures next[i].storage != []
    {
      assert GoesTo(pools, machines, rs[k + 1], i);
    }
    if n < |rs| {
      var i: nat :| GoesTo(pools, machines, rs[n], i) && pools[i].storage == [];
      assert GoesTo(next, machines, rs[1..][n - 1], i);
    }
  }

  /** Pools that differ in what was placed there only. */
  ghost predicate Alike(pools: seq<Pool>, next: seq<Pool>) {
    && |next| == |pools|
    && forall i | 0 <= i < |pools| :: next[i].uuid == pools[i].uuid && (next[i].storage == [] <==> pools[i].storage == [])
  }

  lemma SamePools(pools: seq<Pool>, next: seq<Pool>)
    requires DistinctPools(pools) && Alike(pools, next)
    ensures DistinctPools(next)
  {
  }

  lemma {:induction false} GoingSame(pools: seq<Pool>, next: seq<Pool>, machines: map<Uuid, Option<Uuid>>, rs: seq<VolumeRequest>, i: nat)
    requires Alike(pools, next)
    ensures Going(next, machines, rs, i) == Going(pools, machines, rs, i)
    decreases rs
  {
    if rs != [] {
      GoingSame(pools, next, machines, rs[1..], i);
    }
  }

  /** Over a whole iteration, each pool went through the volumes of the nodes placed there and
      then the volumes requested there: its storage grew by exactly what these asked for
      minus what they reused, and no spare volume was bound twice. */
  lemma IterationConserves(policy: PoolPolicy, pools: seq<Pool>, nodes: seq<Node>,
                           machines: map<Uuid, Option<Uuid>>, rs: seq<VolumeRequest>, i: nat)
    requires i < |pools| && DistinctSpares(pools[i].spares)
    ensures var mid := AfterNodes(policy, pools, nodes);
            var end := AfterRequests(mid, machines, rs)[i];
            var vs := VolumesAt(nodes, Placements(policy, pools, nodes), i) + RequestsAt(mid, machines, rs, i);
            && (vs != [] ==> pools[i].storage != [])
            && end.cores == pools[i].cores - CoresAt(nodes, Placements(policy, pools, nodes), i)
            && end.ram == pools[i].ram - RamAt(nodes, Placements(policy, pools, nodes), i)
            && |end.storage| == |pools[i].storage|
            && (vs != [] ==>
                  end.storage[0].provisioned ==
                  pools[i].storage[0].provisioned + Requested(vs) - Occupied(Taken(Bindings(pools[i], vs))))
            && multiset(pools[i].spares) == multiset(end.spares) + multiset(Taken(Bindings(pools[i], vs)))
            && DistinctSpares(Taken(Bindings(pools[i], vs)))
  {
    var placed := Placements(policy, pools, nodes);
    var mid := AfterNodes(policy, pools, nodes);
    var us, ws := VolumesAt(nodes, placed, i), RequestsAt(mid, machines, rs, i);
    NodesConserve(policy, pools, nodes, i);
    RequestsArePlacements(mid, machines, rs, i);
    OnlyVolumesMatter(mid[i], PoolAfterVolumes(pools[i], us), ws);
    VolumesCompose(pools[i], us, ws);
    PlacementsConserve(pools[i], us + ws);
    TakenOnce(pools[i], us + ws);
  }

  // ---- The loops over shared pool objects ----

  class PoolBundle {
    const uuid: Uuid
    var cores: int
    var ram: int
    var storage: seq<Storage>
    var spares: seq<Spare>

    constructor (p: Pool)
      ensures View() == p
    {
      uuid, cores, ram, storage, spares := p.uuid, p.cores, p.ram, p.storage, p.spares;
    }

    function View(): Pool
      reads this
    {
      Pool(uuid, cores, ram, storage, spares)
    }

    /** `_place_volume_into_pool`; fails when the pool has no storage pool. */
    method PlaceVolume(v: Volume) returns (r: Option<Binding>)
      modifies this
      ensures storage == [] <==> old(storage) == []
      ensures r.None? <==> old(storage) == []
      ensures r.None? ==> View() == old(View())
      ensures r.Some? ==> r.value == BindingFor(old(View()), v) && View() == PoolAfterVolume(old(View()), v)
    {
      if |storage| == 0 {
        return None;
      }
      if v.image.None? {
        storage := storage[0 := storage[0].Allocate(v.size)];
        return Some(Created(v));
      }
      var best: Option<nat> := None;
      for k := 0 to |spares|
        invariant best == BestSpare(spares, v, k)
      {
        if Fits(spares[k], v) && (best.None? || spares[k].size > spares[best.value].size) {
          best := Some(k);
        }
      }
      if best.None? {
        storage := storage[0 := storage[0].Allocate(v.size)];
        return Some(Created(v));
      }
      var spare := spares[best.value];
      var need := v.size - spare.size;
      if need != 0 && storage[0].Available() < need {
        storage := storage[0 := storage[0].Allocate(v.size)];
        return Some(Created(v));
      }
      storage := storage[0 := storage[0].Allocate(need)];
      spares := spares[..best.value] + spares[best.value + 1..];
      return Some(Reused(spare, v));
    }

    /** `_place_node_into_pool`, with all saves succeeding. */
    method PlaceNode(n: Node) returns (ok: bool)
      modifies this
      ensures ok <==> n.volumes == [] || old(storage) != []
      ensures View() == if ok then PoolAfterNode(old(View()), n) else old(View())
    {
      ghost var p := View();
      for k := 0 to |n.volumes|
        invariant storage == [] <==> p.storage == []
        invariant k > 0 ==> p.storage != []
        invariant View() == PoolAfterVolumes(p, n.volumes[..k])
      {
        assert n.volumes[..k + 1][..k] == n.volumes[..k];
        var b := PlaceVolume(n.volumes[k]);
        if b.None? {
          return false;
        }
      }
      assert n.volumes[..|n.volumes|] == n.volumes;
      cores := cores - n.cores;
      ram := ram - n.ram;
      return true;
    }
  }

  ghost predicate DistinctBundles(bs: seq<PoolBundle>) {
    forall i, j | 0 <= i < j < |bs| :: bs[i] != bs[j] && bs[i].uuid != bs[j].uuid
  }

  function Views(bs: seq<PoolBundle>): (ps: seq<Pool>)
    reads bs
    ensures |ps| == |bs| && forall i | 0 <= i < |bs| :: ps[i] == bs[i].View()
  {
    if bs == [] then [] else Views(bs[..|bs| - 1]) + [bs[|bs| - 1].View()]
  }

  method ScheduleOne(policy: PoolPolicy, n: Node, pools: seq<PoolBundle>) returns (target: Option<nat>)
    requires Lawful(policy) && DistinctBundles(pools)
    modifies pools
    ensures Views(pools) == AfterNode(policy, old(Views(pools)), n)
    ensures target == Target(policy, old(Views(pools)), n)
  {
    var views := Views(pools);
    var c := Choose(policy, n, views);
    if c.None? {
      return None;
    }
    var i := IndexOf(views, c.value.uuid);
    if i == |pools| {
      return None;
    }
    var ok := pools[i].PlaceNode(n);
    assert forall j | 0 <= j < |pools| && j != i :: pools[j] != pools[i];
    assert Views(pools) == if ok then views[i := PoolAfterNode(views[i], n)] else views;
    return if ok then Some(i) else None;
  }

  /** `_schedule_on_pools`. */
  method ScheduleOnPools(policy: PoolPolicy, nodes: seq<Node>, pools: seq<PoolBundle>)
    returns (placed: seq<Option<nat>>)
    requires Lawful(policy) && DistinctBundles(pools)
    modifies pools
    ensures Views(pools) == AfterNodes(policy, old(Views(pools)), nodes)
    ensures placed == Placements(policy, old(Views(pools)), nodes)
  {
    ghost var start := Views(pools);
    placed := [];
    for k := 0 to |nodes|
      invariant Views(pools) == AfterNodes(policy, start, nodes[..k])
      invariant placed == Placements(policy, start, nodes[..k])
    {
      assert nodes[..k + 1][..k] == nodes[..k];
      var target := ScheduleOne(policy, nodes[k], pools);
      placed := placed + [target];
    }
    assert nodes[..|nodes|] == nodes;
  }

  /** One volume, placed on the pool found for it, if any; without storage there the loop ends. */
  method ScheduleVolume(machines: map<Uuid, Option<Uuid>>, r: VolumeRequest, pools: seq<PoolBundle>) returns (ended: bool)
    requires DistinctBundles(pools)
    modifies pools
    ensures var views, t := old(Views(pools)), RequestTarget(old(Views(pools)), machines, r);
            && (ended <==> t.Some? && views[t.value].storage == [])
            && Views(pools) == if t.None? || ended then views else views[t.value := PoolAfterVolume(views[t.value], r.volume)]
  {
    var views := Views(pools);
    var t := RequestTarget(views, machines, r);
    if t.None? {
      return false;
    }
    var i := t.value;
    var b := pools[i].PlaceVolume(r.volume);
    assert forall j | 0 <= j < |pools| && j != i :: pools[j] != pools[i];
    assert Views(pools) == if b.None? then views else views[i := PoolAfterVolume(views[i], r.volume)];
    return b.None?;
  }

  /** `_schedule_volume_on_pools`, with all saves succeeding. */
  method ScheduleVolumes(machines: map<Uuid, Option<Uuid>>, rs: seq<VolumeRequest>, pools: seq<PoolBundle>)
    requires DistinctBundles(pools)
    modifies pools
    ensures Views(pools) == AfterRequests(old(Views(pools)), machines, rs)
  {
    ghost var start := Views(pools);
    for k := 0 to |rs|
      invariant AfterRequests(start, machines, rs) == AfterRequests(Views(pools), machines, rs[k..])
    {
      assert rs[k..][1..] == rs[k + 1..];
      var ended := ScheduleVolume(machines, rs[k], pools);
      if ended {
        return;
      }
    }
  }
}
