/** Reconciling a node set: its target nodes and its status. */
module NodeSets {
  import opened Common

  datatype Status = New | Scheduled | InProgress | Started | Active | Error

  datatype Node = Node(uuid: Uuid, cores: nat, ram: nat, status: Status)

  /** What is reported for a node. */
  datatype Report = Report(uuid: Uuid, status: Status, ipv4: Option<nat>)

  /** A target object with what is reported for it. */
  datatype Pair = NodePair(target: Uuid, actual: Option<Report>) | VolumePair(volume: Uuid)

  function TargetNodes(infra: seq<Pair>): seq<Uuid> {
    if infra == [] then []
    else
      var p := infra[|infra| - 1];
      TargetNodes(infra[..|infra| - 1]) + if p.NodePair? then [p.target] else []
  }

  /** The identifiers of the wanted nodes: the first existing ones, then drawn ones. */
  function WantedUuids(replicas: nat, existing: seq<Uuid>, drawn: seq<Uuid>): (r: seq<Uuid>)
    requires |drawn| >= replicas
    ensures |r| == replicas
    ensures forall i | 0 <= i < replicas :: r[i] == if i < |existing| then existing[i] else drawn[i]
  {
    seq(replicas, i requires 0 <= i < replicas => if i < |existing| then existing[i] else drawn[i])
  }

  /** The reports about wanted nodes, in order. */
  function Reports(infra: seq<Pair>, wanted: set<Uuid>): seq<Report> {
    if infra == [] then []
    else
      var p := infra[|infra| - 1];
      Reports(infra[..|infra| - 1], wanted) +
      if p.NodePair? && p.actual.Some? && p.actual.value.uuid in wanted then [p.actual.value] else []
  }

  predicate AllActive(reports: seq<Report>) {
    forall r | r in reports :: r.status == Active
  }

  predicate SomeIn(reports: seq<Report>, s: Status) {
    exists r | r in reports :: r.status == s
  }

  function NextStatus(before: Status, replicas: nat, reports: seq<Report>): Status {
    if |reports| >= replicas && AllActive(reports) then Active
    else if SomeIn(reports, Error) then Error
    else if SomeIn(reports, New) then New
    else if SomeIn(reports, InProgress) then InProgress
    else before
  }

  function Uuids(xs: seq<Uuid>): (r: set<Uuid>)
    ensures forall u :: u in r <==> u in xs
  {
    set u | u in xs
  }

  ghost predicate NoRepeats<T>(xs: seq<T>) {
    forall i, j | 0 <= i < j < |xs| :: xs[i] != xs[j]
  }

  /** No node is reported twice. */
  ghost predicate ReportedOnce(infra: seq<Pair>) {
    forall i, j | 0 <= i < j < |infra| && infra[i].NodePair? && infra[j].NodePair?
                  && infra[i].actual.Some? && infra[j].actual.Some? ::
      infra[i].actual.value.uuid != infra[j].actual.value.uuid
  }

  /** Exactly `replicas` nodes are wanted, the first existing ones keeping their
      identifiers in order; distinct ones stay distinct. */
  lemma WantedMeaning(replicas: nat, existing: seq<Uuid>, drawn: seq<Uuid>)
    requires |drawn| >= replicas
    ensures var r := WantedUuids(replicas, existing, drawn);
            && |r| == replicas
            && r[..if |existing| < replicas then |existing| else replicas] ==
               existing[..if |existing| < replicas then |existing| else replicas]
            && (NoRepeats(existing + drawn) ==> NoRepeats(r))
  {
    var r := WantedUuids(replicas, existing, drawn);
    var all := existing + drawn;
    if NoRepeats(all) {
      forall i, j | 0 <= i < j < |r|
        ensures r[i] != r[j]
      {
        var a := if i < |existing| then i else |existing| + i;
        var b := if j < |existing| then j else |existing| + j;
        assert all[a] == r[i] && all[b] == r[j];
      }
    }
  }

  /** The node targets among the first `i` pairs. */
  ghost function NodesBefore(infra: seq<Pair>, i: nat): set<nat>
    requires i <= |infra|
  {
    set j: nat | j < i && infra[j].NodePair?
  }

  /** The target nodes are those of the node pairs, each at its place. */
  lemma {:induction false} TargetsInOrder(infra: seq<Pair>)
    ensures |TargetNodes(infra)| == |NodesBefore(infra, |infra|)|
    ensures forall i: nat | i < |infra| && infra[i].NodePair? ::
              |NodesBefore(infra, i)| < |TargetNodes(infra)| && TargetNodes(infra)[|NodesBefore(infra, i)|] == infra[i].target
  {
    if infra != [] {
      var k := |infra| - 1;
      var most := infra[..k];
      TargetsInOrder(most);
      assert forall i: nat | i <= k :: NodesBefore(infra, i) == NodesBefore(most, i);
      OneMoreNode(infra);
    }
  }

  lemma OneMoreNode(infra: seq<Pair>)
    requires infra != []
    ensures var k := |infra| - 1;
            |NodesBefore(infra, |infra|)| == |NodesBefore(infra, k)| + if infra[k].NodePair? then 1 else 0
  {
    var k := |infra| - 1;
    assert NodesBefore(infra, |infra|) == NodesBefore(infra, k) + if infra[k].NodePair? then {k} else {};
  }

  /** The first `replicas` nodes that are targets already stay targets. */
  lemma TargetsStay(infra: seq<Pair>, replicas: nat, drawn: seq<Uuid>, i: nat)
    requires |drawn| >= replicas && i < |infra| && infra[i].NodePair? && |NodesBefore(infra, i)| < replicas
    ensures WantedUuids(replicas, TargetNodes(infra), drawn)[|NodesBefore(infra, i)|] == infra[i].target
  {
    TargetsInOrder(infra);
  }

  // ---- Counting ----

  function ReportUuids(reports: seq<Report>): set<Uuid> {
    set r | r in reports :: r.uuid
  }

  lemma {:induction false} ReportsMeaning(infra: seq<Pair>, wanted: set<Uuid>)
    ensures forall r | r in Reports(infra, wanted) ::
              r.uuid in wanted && exists p :: p in infra && p.NodePair? && p.actual == Some(r)
    ensures forall p | p in infra && p.NodePair? && p.actual.Some? && p.actual.value.uuid in wanted ::
              p.actual.value in Reports(infra, wanted)
  {
    if infra != [] {
      var k := |infra| - 1;
      ReportsMeaning(infra[..k], wanted);
      assert infra == infra[..k] + [infra[k]];
    }
  }

  lemma {:induction false} ReportsCount(infra: seq<Pair>, wanted: set<Uuid>)
    requires ReportedOnce(infra)
    ensures |Reports(infra, wanted)| == |ReportUuids(Reports(infra, wanted))|
  {
    if infra != [] {
      var k := |infra| - 1;
      var rest, all := Reports(infra[..k], wanted), Reports(infra, wanted);
      ReportsCount(infra[..k], wanted);
      ReportsMeaning(infra[..k], wanted);
      if all != rest {
        var last := infra[k].actual.value;
        NotReportedBefore(infra, wanted, k);
        assert ReportUuids(all) == ReportUuids(rest) + {last.uuid};
      }
    }
  }

  lemma {:induction false} NoRepeatsCount(xs: seq<Uuid>)
    ensures |Uuids(xs)| <= |xs|
    ensures NoRepeats(xs) ==> |Uuids(xs)| == |xs|
  {
    if xs != [] {
      var k := |xs| - 1;
      NoRepeatsCount(xs[..k]);
      assert Uuids(xs) == Uuids(xs[..k]) + {xs[k]};
      if NoRepeats(xs) {
        assert xs[k] !in xs[..k];
      }
    }
  }

  lemma {:induction false} SubsetCount<T>(a: set<T>, b: set<T>)
    requires a <= b
    ensures |a| <= |b| && (|a| == |b| ==> a == b)
  {
    if a != {} {
      var x :| x in a;
      SubsetCount(a - {x}, b - {x});
      if |a| == |b| {
        assert a == a - {x} + {x} && b == b - {x} + {x};
      }
    } else if |b| == 0 {
      assert b == {};
    }
  }

  /** The node is reported, and as active. */
  ghost predicate ReportedActive(infra: seq<Pair>, u: Uuid) {
    exists p :: p in infra && p.NodePair? && p.actual.Some? && p.actual.value.uuid == u && p.actual.value.status == Active
  }

  /** The length test stands for every wanted node being reported active, by counting:
      as many different wanted nodes are reported as there are wanted nodes. */
  lemma LengthTestIff(replicas: nat, wanted: seq<Uuid>, infra: seq<Pair>)
    requires |wanted| == replicas && NoRepeats(wanted) && ReportedOnce(infra)
    ensures var reports := Reports(infra, Uuids(wanted));
            |reports| >= replicas && AllActive(reports) <==> forall u | u in wanted :: ReportedActive(infra, u)
  {
    var all := Uuids(wanted);
    var reports := Reports(infra, all);
    ReportsMeaning(infra, all);
    ReportsCount(infra, all);
    NoRepeatsCount(wanted);
    SubsetCount(ReportUuids(reports), all);
    if |reports| >= replicas && AllActive(reports) {
      assert ReportUuids(reports) == all;
      forall u | u in wanted
        ensures ReportedActive(infra, u)
      {
        assert u in ReportUuids(reports);
        var r :| r in reports && r.uuid == u;
        var p :| p in infra && p.NodePair? && p.actual == Some(r);
        assert p.actual.value.status == Active;
      }
    }
    if forall u | u in wanted :: ReportedActive(infra, u) {
      EveryoneActive(wanted, infra);
    }
  }

  lemma EveryoneActive(wanted: seq<Uuid>, infra: seq<Pair>)
    requires NoRepeats(wanted) && ReportedOnce(infra) && forall u | u in wanted :: ReportedActive(infra, u)
    ensures |Reports(infra, Uuids(wanted))| >= |wanted| && AllActive(Reports(infra, Uuids(wanted)))
  {
    var all := Uuids(wanted);
    var reports := Reports(infra, all);
    ReportsMeaning(infra, all);
    ReportsCount(infra, all);
    NoRepeatsCount(wanted);
    forall u | u in all
      ensures u in ReportUuids(reports)
    {
      assert ReportedActive(infra, u);
      var p :| p in infra && p.NodePair? && p.actual.Some? && p.actual.value.uuid == u && p.actual.value.status == Active;
      assert p.actual.value in reports;
    }
    assert ReportUuids(reports) == all;
    forall r | r in reports
      ensures r.status == Active
    {
      assert ReportedActive(infra, r.uuid);
      var p :| p in infra && p.NodePair? && p.actual.Some? && p.actual.value.uuid == r.uuid && p.actual.value.status == Active;
      var q :| q in infra && q.NodePair? && q.actual == Some(r);
      var i :| 0 <= i < |infra| && infra[i] == p;
      var j :| 0 <= j < |infra| && infra[j] == q;
      assert i == j;
    }
  }

  /** When the set becomes or stays active: every wanted node is reported active, or it was
      active already and no report says otherwise in a way the code looks at. */
  lemma ActiveIff(before: Status, replicas: nat, wanted: seq<Uuid>, infra: seq<Pair>)
    requires |wanted| == replicas && NoRepeats(wanted) && ReportedOnce(infra)
    ensures var reports := Reports(infra, Uuids(wanted));
            NextStatus(before, replicas, reports) == Active <==>
              || (forall u | u in wanted :: ReportedActive(infra, u))
              || (before == Active && !SomeIn(reports, Error) && !SomeIn(reports, New) && !SomeIn(reports, InProgress))
  {
    LengthTestIff(replicas, wanted, infra);
  }

  /** Some wanted node is reported with this status. */
  ghost predicate ReportedIn(infra: seq<Pair>, wanted: set<Uuid>, s: Status) {
    exists p | p in infra :: p.NodePair? && p.actual.Some? && p.actual.value.uuid in wanted && p.actual.value.status == s
  }

  lemma SomeInIff(infra: seq<Pair>, wanted: set<Uuid>, s: Status)
    ensures SomeIn(Reports(infra, wanted), s) <==> ReportedIn(infra, wanted, s)
  {
    var reports := Reports(infra, wanted);
    ReportsMeaning(infra, wanted);
    if SomeIn(reports, s) {
      var r :| r in reports && r.status == s;
      var p :| p in infra && p.NodePair? && p.actual == Some(r);
    }
  }

  /** Which status wins, on the reports themselves: active when every wanted node is; else an
      error, then one that is new, then one in progress; else the set's own. */
  lemma StatusIs(before: Status, replicas: nat, wanted: seq<Uuid>, infra: seq<Pair>)
    requires |wanted| == replicas && NoRepeats(wanted) && ReportedOnce(infra)
    ensures var status, all := NextStatus(before, replicas, Reports(infra, Uuids(wanted))), Uuids(wanted);
            if forall u | u in wanted :: ReportedActive(infra, u) then status == Active
            else if ReportedIn(infra, all, Error) then status == Error
            else if ReportedIn(infra, all, New) then status == New
            else if ReportedIn(infra, all, InProgress) then status == InProgress
            else status == before
  {
    LengthTestIff(replicas, wanted, infra);
    SomeInIff(infra, Uuids(wanted), Error);
    SomeInIff(infra, Uuids(wanted), New);
    SomeInIff(infra, Uuids(wanted), InProgress);
  }

  // ---- The builder ----

  class NodeSet {
    const replicas: nat
    const cores: nat
    const ram: nat
    /** The reported nodes and their addresses. */
    var nodes: map<Uuid, Option<nat>>
    var status: Status

    constructor (replicas: nat, cores: nat, ram: nat)
      ensures this.replicas == replicas && this.cores == cores && this.ram == ram
      ensures nodes == map[] && status == New
    {
      this.replicas, this.cores, this.ram := replicas, cores, ram;
      nodes, status := map[], New;
    }

    /** `drawn` are random identifiers. */
    method GenNodes(nodeUuids: seq<Uuid>, drawn: seq<Uuid>) returns (r: seq<Node>)
      requires |drawn| >= replicas
      ensures |r| == replicas
      ensures forall i | 0 <= i < replicas :: r[i] == Node(WantedUuids(replicas, nodeUuids, drawn)[i], cores, ram, New)
    {
      r := [];
      for i := 0 to replicas
        invariant |r| == i
        invariant forall j | 0 <= j < i :: r[j] == Node(WantedUuids(replicas, nodeUuids, drawn)[j], cores, ram, New)
      {
        var u := if i < |nodeUuids| then nodeUuids[i] else drawn[i];
        r := r + [Node(u, cores, ram, New)];
      }
    }

    method CollectTargets(infra: seq<Pair>) returns (uuids: seq<Uuid>)
      ensures uuids == TargetNodes(infra)
    {
      uuids := [];
      for i := 0 to |infra|
        invariant uuids == TargetNodes(infra[..i])
      {
        assert infra[..i + 1][..i] == infra[..i];
        if infra[i].NodePair? {
          uuids := uuids + [infra[i].target];
        }
      }
      assert infra[..|infra|] == infra;
    }

    method CollectReports(infra: seq<Pair>, wanted: set<Uuid>) returns (actual: map<Uuid, Option<nat>>, reports: seq<Report>)
      ensures reports == Reports(infra, wanted)
      ensures actual.Keys == ReportUuids(reports)
      ensures ReportedOnce(infra) ==> forall r | r in reports :: actual[r.uuid] == r.ipv4
    {
      actual, reports := map[], [];
      for i := 0 to |infra|
        invariant reports == Reports(infra[..i], wanted)
        invariant actual.Keys == ReportUuids(reports)
        invariant ReportedOnce(infra) ==> forall r | r in reports :: actual[r.uuid] == r.ipv4
      {
        assert infra[..i + 1][..i] == infra[..i];
        var p := infra[i];
        if p.NodePair? && p.actual.Some? && p.actual.value.uuid in wanted {
          var r := p.actual.value;
          if ReportedOnce(infra) {
            NotReportedBefore(infra, wanted, i);
          }
          actual := actual[r.uuid := r.ipv4];
          assert ReportUuids(reports + [r]) == ReportUuids(reports) + {r.uuid};
          reports := reports + [r];
        }
      }
      assert infra[..|infra|] == infra;
    }

    /** Returns the target nodes; records addresses and the status. */
    method ActualizeInfra(infra: seq<Pair>, drawn: seq<Uuid>) returns (targets: map<Uuid, Node>)
      requires |drawn| >= replicas
      modifies this
      ensures var wanted := Uuids(WantedUuids(replicas, TargetNodes(infra), drawn));
              && targets == (map u | u in wanted :: Node(u, cores, ram, New))
              && (forall i: nat | i < |infra| && infra[i].NodePair? && |NodesBefore(infra, i)| < replicas :: infra[i].target in targets)
              && status == NextStatus(old(status), replicas, Reports(infra, wanted))
              && nodes.Keys == ReportUuids(Reports(infra, wanted))
              && (ReportedOnce(infra) ==> forall r | r in Reports(infra, wanted) :: nodes[r.uuid] == r.ipv4)
    {
      var nodeUuids := CollectTargets(infra);
      var generated := GenNodes(nodeUuids, drawn);
      ghost var wanted := WantedUuids(replicas, nodeUuids, drawn);
      targets := map[];
      for i := 0 to |generated|
        invariant targets == map u | u in Uuids(wanted[..i]) :: Node(u, cores, ram, New)
      {
        assert Uuids(wanted[..i + 1]) == Uuids(wanted[..i]) + {wanted[i]};
        targets := targets[generated[i].uuid := generated[i]];
      }
      assert wanted[..|generated|] == wanted && targets.Keys == Uuids(wanted);
      forall i: nat | i < |infra| && infra[i].NodePair? && |NodesBefore(infra, i)| < replicas
        ensures infra[i].target in targets
      {
        TargetsStay(infra, replicas, drawn, i);
      }
      var reports;
      nodes, reports := CollectReports(infra, targets.Keys);
      if |reports| >= replicas && AllActive(reports) {
        status := Active;
      } else if SomeIn(reports, Error) {
        status := Error;
      } else if SomeIn(reports, New) {
        status := New;
      } else if SomeIn(reports, InProgress) {
        status := InProgress;
      }
    }
  }

  lemma NotReportedBefore(infra: seq<Pair>, wanted: set<Uuid>, k: nat)
    requires k < |infra| && ReportedOnce(infra) && infra[k].NodePair? && infra[k].actual.Some?
    ensures infra[k].actual.value.uuid !in ReportUuids(Reports(infra[..k], wanted))
  {
    ReportsMeaning(infra[..k], wanted);
    forall r | r in Reports(infra[..k], wanted)
      ensures r.uuid != infra[k].actual.value.uuid
    {
      var p :| p in infra[..k] && p.NodePair? && p.actual == Some(r);
      var i :| 0 <= i < k && infra[i] == p;
    }
  }
}
