/**
 The second half of an iteration: one network's subnets and ports are pushed to the data
 plane by comparing the database with what the driver lists.
 */
module Reconciler {
  import opened Common
  import opened NetworkModels
  import opened Keyed
  import opened FlatDriver

  // ---- What one run does, as a function of both sides ----

  predicate Outdated(actual: Subnet, target: Subnet) {
    target.cidr != actual.cidr || target.nextServer != actual.nextServer
  }

  /** The update goes through, and takes the ports along. */
  predicate Wiped(actual: Subnet, target: Subnet) {
    Outdated(actual, target) && target.described
  }

  predicate AddressDiffers(target: Port, actual: Port) {
    target.ipv4 != actual.ipv4 || target.mask != actual.mask
  }

  function Missing(actual: Site, target: Site): set<Uuid> {
    target.ports.Keys - actual.ports.Keys
  }

  function Kept(actual: Site, target: Site): set<Uuid> {
    target.ports.Keys * actual.ports.Keys
  }

  /** The batch of missing ports goes through as a whole or not at all. */
  predicate BatchAccepted(actual: Site, target: Site) {
    forall u | u in Missing(actual, target) :: Configured(target.ports[u])
  }

  predicate Pushed(actual: Site, target: Site, u: Uuid)
    requires u in Kept(actual, target)
  {
    AddressDiffers(target.ports[u], actual.ports[u]) && Configured(target.ports[u])
  }

  /** Which ports a subnet known to both sides has afterwards. */
  function PortsAfter(actual: Site, target: Site): set<Uuid> {
    (if BatchAccepted(actual, target) then Missing(actual, target) else {})
    + (set u | u in Kept(actual, target) && (Pushed(actual, target, u) || !Wiped(actual.subnet, target.subnet)))
  }

  function SiteAfter(actual: Site, target: Site): Site {
    Site(if Wiped(actual.subnet, target.subnet) then target.subnet else actual.subnet,
         map u | u in PortsAfter(actual, target) ::
           if u !in actual.ports || Pushed(actual, target, u) then target.ports[u].(status := Active)
           else actual.ports[u])
  }

  /** The database side: what the driver returned, or what it had listed, is written back. */
  function TargetAfter(actual: Site, target: Site): Site {
    Site(target.subnet,
         map u | u in target.ports ::
           if u in actual.ports then WrittenBack(target.ports[u], actual.ports[u])
           else if BatchAccepted(actual, target) then target.ports[u].(status := Active)
           else target.ports[u])
  }

  function WrittenBack(target: Port, actual: Port): Port {
    target.(status := actual.status, ipv4 := actual.ipv4, mask := actual.mask)
  }

  /** Both sides of one network. */
  datatype World = World(plane: Plane, target: Plane)

  /** A subnet is on the data plane after a run when it was there or can be created. */
  predicate Present(w: World, u: Uuid)
    requires u in w.target
  {
    u in w.plane || w.target[u].subnet.described
  }

  function Reconciled(w: World): World {
    World(map u | u in w.target && Present(w, u) ::
            if u in w.plane then SiteAfter(w.plane[u], w.target[u]) else Site(w.target[u].subnet, map[]),
          map u | u in w.target ::
            if u in w.plane then TargetAfter(w.plane[u], w.target[u]) else w.target[u])
  }

  function Runs(w: World, n: nat): World
    decreases n
  {
    if n == 0 then w else Runs(Reconciled(w), n - 1)
  }

  /** What one run keeps, every number of runs keeps. */
  lemma {:induction false} RunsKeep(inv: World -> bool, w: World, n: nat)
    requires inv(w)
    requires forall x :: inv(x) ==> inv(Reconciled(x))
    ensures inv(Runs(w, n))
    decreases n
  {
    if n > 0 {
      RunsKeep(inv, Reconciled(w), n - 1);
    }
  }

  // ---- Convergence ----

  /** The same network, booted from the same server. */
  ghost predicate SameNetwork(a: Subnet, b: Subnet) {
    a.cidr == b.cidr && a.nextServer == b.nextServer
  }

  ghost predicate SameAddress(a: Port, b: Port) {
    a.ipv4 == b.ipv4 && a.mask == b.mask
  }

  /** The port has what a host entry of the DHCP configuration needs. */
  ghost predicate Attachable(p: Port) {
    p.mac.Some? && p.ipv4.Some?
  }

  ghost predicate SiteAgrees(actual: Site, target: Site) {
    actual.ports.Keys == target.ports.Keys && SameNetwork(actual.subnet, target.subnet)
  }

  ghost predicate Agrees(w: World) {
    && w.plane.Keys == w.target.Keys
    && (forall u | u in w.target :: SiteAgrees(w.plane[u], w.target[u]))
  }

  /** What can be checked before the first run: subnets that have to be created or updated
      are described, and the ports that have to be created, in the first run or after a
      wipe, carry a MAC and an address (a port that survives keeps the address the data
      plane has). */
  ghost predicate Convergeable(w: World) {
    (forall u | u in w.target :: !Stuck(w, u)) && PortsConvergeable(w)
  }

  /** A subnet that every attempt to create or update it is refused for. */
  ghost predicate Stuck(w: World, u: Uuid) {
    && u in w.target && !w.target[u].subnet.described
    && (u in w.plane ==> !SameNetwork(w.plane[u].subnet, w.target[u].subnet))
  }

  ghost predicate PortsConvergeable(w: World) {
    forall u, v | u in w.target && v in w.target[u].ports :: PortConvergeable(w, u, w.target[u].ports[v], v)
  }

  /** A port to create needs a MAC and an address, one that is wiped needs a MAC: it has the
      address that was on the data plane by the time it is created again. */
  ghost predicate PortConvergeable(w: World, u: Uuid, p: Port, v: Uuid)
    requires u in w.target
  {
    if u !in w.plane || v !in w.plane[u].ports then Attachable(p)
    else !SameNetwork(w.plane[u].subnet, w.target[u].subnet) && w.target[u].subnet.described ==> p.mac.Some?
  }

  /** What a changed subnet, its missing ports and its wiped ports need for one run. */
  ghost predicate SettlesInOneRun(actual: Site, target: Site) {
    && (forall v | v in target.ports && v !in actual.ports :: Attachable(target.ports[v]))
    && (!SameNetwork(actual.subnet, target.subnet) ==>
          && target.subnet.described
          && forall v | v in target.ports && v in actual.ports ::
               Attachable(target.ports[v]) && !SameAddress(target.ports[v], actual.ports[v]))
  }

  /** Exactly when a single run already settles one subnet. */
  lemma SettledInOneRunIff(actual: Site, target: Site)
    ensures SiteAgrees(SiteAfter(actual, target), TargetAfter(actual, target))
       <==> SettlesInOneRun(actual, target)
  {
    var after := SiteAfter(actual, target);
    assert after.ports.Keys == PortsAfter(actual, target);
    assert TargetAfter(actual, target).ports.Keys == target.ports.Keys == Missing(actual, target) + Kept(actual, target);
    if v :| v in target.ports && v !in actual.ports && !Attachable(target.ports[v]) {
      assert v in Missing(actual, target) && v !in after.ports;
    }
    assert forall v :: v in target.ports && v in actual.ports <==> v in Kept(actual, target);
  }

  /** Every subnet is on the data plane with its current network, and nothing that is
      still missing can be rejected. */
  ghost predicate Ready(w: World) {
    forall u | u in w.target ::
      && u in w.plane && SameNetwork(w.plane[u].subnet, w.target[u].subnet)
      && forall v | v in w.target[u].ports && v !in w.plane[u].ports :: Attachable(w.target[u].ports[v])
  }

  lemma ReadyAgreesNext(w: World)
    requires Ready(w)
    ensures Agrees(Reconciled(w))
  {
    forall u | u in w.target {
      SettledInOneRunIff(w.plane[u], w.target[u]);
    }
  }

  lemma AgreementIsReady(w: World)
    requires Agrees(w)
    ensures Ready(w)
  {
  }

  lemma ConvergeableIsReadyNext(w: World)
    requires RenderablePlane(w.plane) && Convergeable(w)
    ensures Ready(Reconciled(w))
  {
    var w' := Reconciled(w);
    forall u | u in w.target
      ensures u in w'.plane && SameNetwork(w'.plane[u].subnet, w'.target[u].subnet)
      ensures forall v | v in w'.target[u].ports && v !in w'.plane[u].ports :: Attachable(w'.target[u].ports[v])
    {
      assert !Stuck(w, u);
      forall v | v in w'.target[u].ports && v !in w'.plane[u].ports
        ensures Attachable(w'.target[u].ports[v])
      {
        assert PortConvergeable(w, u, w.target[u].ports[v], v);
        if u in w.plane {
          NothingMissingRefused(w, u);
          assert v !in PortsAfter(w.plane[u], w.target[u]);
        }
      }
    }
  }

  lemma NothingMissingRefused(w: World, u: Uuid)
    requires PortsConvergeable(w) && u in w.target && u in w.plane
    ensures BatchAccepted(w.plane[u], w.target[u])
  {
    forall v | v in Missing(w.plane[u], w.target[u])
      ensures Configured(w.target[u].ports[v])
    {
      assert PortConvergeable(w, u, w.target[u].ports[v], v);
    }
  }

  /** A subnet on both sides with a missing port that every batch will be rejected for. */
  ghost predicate Blocked(w: World, u: Uuid, v: Uuid) {
    && u in w.target && u in w.plane && SameNetwork(w.plane[u].subnet, w.target[u].subnet)
    && v in w.target[u].ports && v !in w.plane[u].ports && !Attachable(w.target[u].ports[v])
  }

  lemma BlockedNext(w: World, u: Uuid, v: Uuid)
    requires Blocked(w, u, v)
    ensures Blocked(Reconciled(w), u, v)
  {
    assert v in Missing(w.plane[u], w.target[u]);
  }

  lemma BlockedForever(w: World, u: Uuid, v: Uuid, n: nat)
    requires Blocked(w, u, v)
    ensures Blocked(Runs(w, n), u, v)
  {
    forall x | Blocked(x, u, v)
      ensures Blocked(Reconciled(x), u, v)
    {
      BlockedNext(x, u, v);
    }
    RunsKeep(x => Blocked(x, u, v), w, n);
  }

  lemma StuckForever(w: World, u: Uuid, n: nat)
    requires Stuck(w, u)
    ensures Stuck(Runs(w, n), u)
  {
    RunsKeep(x => Stuck(x, u), w, n);
  }

  lemma UnconvergeableIsBlockedNext(w: World) returns (u: Uuid, v: Uuid)
    requires !PortsConvergeable(w) && forall x :: !Stuck(w, x)
    ensures Blocked(Reconciled(w), u, v)
  {
    u, v :| u in w.target && v in w.target[u].ports && !PortConvergeable(w, u, w.target[u].ports[v], v);
    assert !Stuck(w, u);
    if u in w.plane {
      assert v in Missing(w.plane[u], w.target[u]) || v in Kept(w.plane[u], w.target[u]);
    }
  }

  lemma ReadyAgreesEver(w: World, n: nat)
    requires Ready(w) && n > 0
    ensures Agrees(Runs(w, n))
  {
    ReadyAgreesNext(w);
    forall x | Agrees(x)
      ensures Agrees(Reconciled(x))
    {
      AgreementIsReady(x);
      ReadyAgreesNext(x);
    }
    RunsKeep(x => Agrees(x), Reconciled(w), n - 1);
  }

  /** From any stored data plane: two runs bring both sides together for good exactly when the
      subnets and ports to be created are configured; otherwise no number of runs does. */
  lemma ConvergesIff(w: World, n: nat)
    requires RenderablePlane(w.plane)
    requires n >= 2
    ensures Agrees(Runs(w, n)) <==> Convergeable(w)
  {
    if Convergeable(w) {
      ConvergeableIsReadyNext(w);
      ReadyAgreesEver(Reconciled(w), n - 1);
    } else if u :| Stuck(w, u) {
      StuckForever(w, u, n);
      assert Stuck(Runs(w, n), u);
    } else {
      var u, v := UnconvergeableIsBlockedNext(w);
      BlockedForever(Reconciled(w), u, v, n - 1);
      var w' := Runs(w, n);
      assert Blocked(w', u, v);
    }
  }

  /** One run is enough exactly when every subnet known to both sides settles in it and every
      new subnet has no ports: a run creates the subnet, only the next one its ports. */
  lemma AgreesAfterOneRunIff(w: World)
    ensures Agrees(Reconciled(w)) <==>
              forall u | u in w.target ::
                if u in w.plane then SettlesInOneRun(w.plane[u], w.target[u])
                else w.target[u].subnet.described && w.target[u].ports == map[]
  {
    var w' := Reconciled(w);
    forall u | u in w.target
      ensures u in w'.plane && SiteAgrees(w'.plane[u], w'.target[u]) <==>
                if u in w.plane then SettlesInOneRun(w.plane[u], w.target[u])
                else w.target[u].subnet.described && w.target[u].ports == map[]
    {
      if u in w.plane {
        SettledInOneRunIff(w.plane[u], w.target[u]);
      } else {
        assert w.target[u].ports.Keys == {} <==> w.target[u].ports == map[];
      }
    }
  }

  // ---- What does not converge ----

  /** A port on both sides whose address or mask differs is exchanged, not settled: the data
      plane gets the database's value and the database the data plane's.  Both sides
      meet exactly when they already did, or when the driver refused the port. */
  lemma AddressesMeetIff(w: World, u: Uuid, v: Uuid)
    requires Agrees(w) && u in w.target && v in w.target[u].ports
    ensures Agrees(Reconciled(w))
    ensures var actual, target := w.plane[u].ports[v], w.target[u].ports[v];
            var actual', target' := Reconciled(w).plane[u].ports[v], Reconciled(w).target[u].ports[v];
            && (SameAddress(actual', target') <==> SameAddress(actual, target) || !Attachable(target))
            && (!SameAddress(actual', target') ==> SameAddress(actual', target) && SameAddress(target', actual))
  {
    AgreementIsReady(w);
    ReadyAgreesNext(w);
    assert v in Kept(w.plane[u], w.target[u]) && v in PortsAfter(w.plane[u], w.target[u]);
  }

  ghost predicate Exchanging(w: World, u: Uuid, v: Uuid) {
    && Agrees(w) && u in w.target && v in w.target[u].ports
    && Attachable(w.plane[u].ports[v]) && Attachable(w.target[u].ports[v])
    && !SameAddress(w.plane[u].ports[v], w.target[u].ports[v])
  }

  lemma ExchangesAgain(w: World, u: Uuid, v: Uuid)
    requires Exchanging(w, u, v)
    ensures Exchanging(Reconciled(w), u, v)
  {
    AddressesMeetIff(w, u, v);
    var w' := Reconciled(w);
    assert w'.target[u].ports[v] == WrittenBack(w.target[u].ports[v], w.plane[u].ports[v]);
    assert w'.plane[u].ports[v] == w.target[u].ports[v].(status := Active);
  }

  /** Once a differing address is pushed, the two sides differ after every number of runs. */
  lemma AddressesNeverMeet(w: World, u: Uuid, v: Uuid, n: nat)
    requires Exchanging(w, u, v)
    ensures Exchanging(Runs(w, n), u, v)
  {
    forall x | Exchanging(x, u, v)
      ensures Exchanging(Reconciled(x), u, v)
    {
      ExchangesAgain(x, u, v);
    }
    RunsKeep(x => Exchanging(x, u, v), w, n);
  }

  /** What a run makes of the row of a port in a subnet known to both sides: with a port on
      the data plane it takes that port's status, address and mask as they were; without one
      it becomes active when the whole batch of missing ports can be created. */
  lemma RowAfterRun(w: World, u: Uuid, v: Uuid)
    requires u in w.plane && u in w.target && v in w.target[u].ports
    ensures u in Reconciled(w).target && v in Reconciled(w).target[u].ports
    ensures var actual, target, row := w.plane[u], w.target[u], Reconciled(w).target[u].ports[v];
            && row.uuid == target.ports[v].uuid && row.subnet == target.ports[v].subnet && row.mac == target.ports[v].mac
            && if v in actual.ports then SameAddress(row, actual.ports[v]) && row.status == actual.ports[v].status
               else
                 && SameAddress(row, target.ports[v])
                 && row.status == if forall x | x in target.ports && x !in actual.ports :: Attachable(target.ports[x])
                                  then Active else target.ports[v].status
  {
    var actual, target := w.plane[u], w.target[u];
    assert forall x :: x in target.ports && x !in actual.ports <==> x in Missing(actual, target);
  }

  /** A port with the same address on both sides keeps it, and its row has the status that is
      on the data plane, after one run and any number more. */
  lemma StatusFollows(w: World, u: Uuid, v: Uuid, n: nat)
    requires Agrees(w) && u in w.target && v in w.target[u].ports
    requires SameAddress(w.plane[u].ports[v], w.target[u].ports[v])
    ensures Settled(Runs(Reconciled(w), n), u, v, w.plane[u].ports[v])
  {
    SettledStays(w, u, v);
    SettledForever(Reconciled(w), u, v, w.plane[u].ports[v], n);
  }

  lemma SettledForever(w: World, u: Uuid, v: Uuid, p: Port, n: nat)
    requires Settled(w, u, v, p)
    ensures Settled(Runs(w, n), u, v, p)
  {
    forall x | Settled(x, u, v, p)
      ensures Settled(Reconciled(x), u, v, p)
    {
      SettledStays(x, u, v);
    }
    RunsKeep(x => Settled(x, u, v, p), w, n);
  }

  /** The port is on the data plane, and the row follows it. */
  ghost predicate Settled(w: World, u: Uuid, v: Uuid, p: Port) {
    && Agrees(w) && u in w.target && v in w.target[u].ports && w.plane[u].ports[v] == p
    && SameAddress(w.target[u].ports[v], p) && w.target[u].ports[v].status == p.status
  }

  lemma SettledStays(w: World, u: Uuid, v: Uuid)
    requires Agrees(w) && u in w.target && v in w.target[u].ports
    requires SameAddress(w.plane[u].ports[v], w.target[u].ports[v])
    ensures Settled(Reconciled(w), u, v, w.plane[u].ports[v])
  {
    AgreementIsReady(w);
    ReadyAgreesNext(w);
    RowAfterRun(w, u, v);
    assert v in Kept(w.plane[u], w.target[u]) && v in PortsAfter(w.plane[u], w.target[u]);
  }

  /** Of a subnet already on the data plane only a new network or boot server is pushed, and
      only with the rest of its description: a change of anything else (the ranges, say)
      stays in the database for ever. */
  lemma SubnetRowsMeetIff(w: World, u: Uuid, n: nat)
    requires u in w.plane && u in w.target && n > 0
    ensures u in Runs(w, n).plane && u in Runs(w, n).target
    ensures var actual, target := w.plane[u].subnet, w.target[u].subnet;
            Runs(w, n).plane[u].subnet == Runs(w, n).target[u].subnet <==>
              || actual == target
              || (target.described && (target.cidr != actual.cidr || target.nextServer != actual.nextServer))
  {
    RowsStay(Reconciled(w), u, Reconciled(w).plane[u].subnet, w.target[u].subnet, n - 1);
  }

  lemma RowsStay(w: World, u: Uuid, actual: Subnet, target: Subnet, n: nat)
    requires HasRows(w, u, actual, target)
    ensures HasRows(Runs(w, n), u, actual, target)
  {
    RunsKeep(x => HasRows(x, u, actual, target), w, n);
  }

  /** The rows of one subnet, between which nothing more is pushed. */
  ghost predicate HasRows(w: World, u: Uuid, actual: Subnet, target: Subnet) {
    && u in w.plane && u in w.target && w.plane[u].subnet == actual && w.target[u].subnet == target
    && (SameNetwork(actual, target) || !target.described)
  }
}
