/**
 The loops of the network reconciler.  Python sets have no order, so every pass picks
 its next identifier freely; the result is nevertheless the function `Reconciled`.
 */
module NetworkService {
  import opened Common
  import opened NetworkModels
  import opened Keyed
  import opened FlatDriver
  import opened Reconciler

  /** Subnets and ports are filed under their own identifiers. */
  ghost predicate Consistent(target: Plane) {
    forall u | u in target :: ConsistentSite(u, target[u])
  }

  ghost predicate ConsistentSite(u: Uuid, site: Site) {
    && site.subnet.uuid == u
    && (forall v | v in site.ports :: site.ports[v].uuid == v && site.ports[v].subnet == u)
  }

  // ---- Batches of ports of one subnet ----

  lemma PortPicked(m: map<Uuid, Port>, ports: seq<Port>, done: set<Uuid>, v: Uuid)
    requires done <= m.Keys && v in m && v !in done && forall w | w in m :: m[w].uuid == w
    requires Distinct(ports, PortKey) && Table(ports, PortKey) == map w | w in done :: m[w]
    requires forall p | p in ports :: p.uuid in done && p == m[p.uuid]
    ensures var next := ports + [m[v]];
            && Distinct(next, PortKey) && Table(next, PortKey) == (map w | w in done + {v} :: m[w])
            && forall p | p in next :: p.uuid in done + {v} && p == m[p.uuid]
  {
    TableAppend(ports, PortKey, m[v]);
    DistinctAppend(ports, PortKey, m[v]);
  }

  method PortsFor(m: map<Uuid, Port>, keys: set<Uuid>) returns (ports: seq<Port>)
    requires keys <= m.Keys && forall v | v in m :: m[v].uuid == v
    ensures Distinct(ports, PortKey)
    ensures Table(ports, PortKey) == map v | v in keys :: m[v]
    ensures forall p | p in ports :: p.uuid in keys && p == m[p.uuid]
  {
    ports := [];
    var todo := keys;
    while todo != {}
      invariant todo <= keys
      invariant Distinct(ports, PortKey)
      invariant forall p | p in ports :: p.uuid in keys - todo && p == m[p.uuid]
      invariant Table(ports, PortKey) == map v | v in keys - todo :: m[v]
      decreases |todo|
    {
      var v :| v in todo;
      PortPicked(m, ports, keys - todo, v);
      assert keys - (todo - {v}) == keys - todo + {v};
      todo := todo - {v};
      ports := ports + [m[v]];
    }
    assert keys - {} == keys;
  }

  lemma {:induction false} WithBatch(pl: Plane, u: Uuid, ports: seq<Port>)
    requires u in pl && forall p | p in ports :: p.subnet == u
    ensures WithPorts(pl, ports) == pl[u := Site(pl[u].subnet, pl[u].ports + Table(ports, PortKey))]
  {
    if ports == [] {
      AddNothing(pl[u].ports);
      PutBack(pl, u, Site(pl[u].subnet, pl[u].ports));
    } else {
      var k := |ports| - 1;
      assert ports[k] in ports;
      WithBatch(pl, u, ports[..k]);
      AddThenPut(pl[u].ports, Table(ports[..k], PortKey), ports[k].uuid, ports[k]);
      PutTwice(pl, u, WithPorts(pl, ports[..k])[u], WithPorts(pl, ports)[u]);
    }
  }

  ghost function Keys(ports: seq<Port>): set<Uuid> {
    set p | p in ports :: p.uuid
  }

  lemma {:induction false} WithoutBatch(pl: Plane, u: Uuid, ports: seq<Port>)
    requires u in pl && forall p | p in ports :: p.subnet == u
    ensures WithoutPorts(pl, ports) == pl[u := Site(pl[u].subnet, pl[u].ports - Keys(ports))]
  {
    if ports == [] {
      assert Keys(ports) == {};
      RemoveNothing(pl[u].ports);
      PutBack(pl, u, Site(pl[u].subnet, pl[u].ports));
    } else {
      var k := |ports| - 1;
      assert ports[k] in ports;
      WithoutBatch(pl, u, ports[..k]);
      assert Keys(ports) == Keys(ports[..k]) + {ports[k].uuid} by {
        assert ports == ports[..k] + [ports[k]];
      }
      RemoveTwice(pl[u].ports, Keys(ports[..k]), ports[k].uuid);
      PutTwice(pl, u, WithoutPorts(pl, ports[..k])[u], WithoutPorts(pl, ports)[u]);
    }
  }

  // ---- The steps of one subnet, on its tables of ports ----

  function CreatedPorts(actual: Site, target: Site): map<Uuid, Port> {
    if BatchAccepted(actual, target) then map v | v in Missing(actual, target) :: target.ports[v].(status := Active)
    else map[]
  }

  function Gone(actual: Site, target: Site): set<Uuid> {
    actual.ports.Keys - target.ports.Keys
  }

  ghost function PushedPorts(actual: Site, target: Site, done: set<Uuid>): map<Uuid, Port>
    requires done <= Kept(actual, target)
  {
    map v | v in done && Pushed(actual, target, v) :: target.ports[v].(status := Active)
  }

  ghost function BackPorts(actual: Site, target: Site, done: set<Uuid>): map<Uuid, Port>
    requires done <= Kept(actual, target)
  {
    map v | v in done :: WrittenBack(target.ports[v], actual.ports[v])
  }

  /** What is left of the actual ports once the subnet itself is up to date. */
  function Base(actual: Site, target: Site): map<Uuid, Port> {
    if Wiped(actual.subnet, target.subnet) then map[] else actual.ports
  }

  lemma StepsMakeSiteAfter(actual: Site, target: Site)
    ensures SiteAfter(actual, target)
         == Site(if Wiped(actual.subnet, target.subnet) then target.subnet else actual.subnet,
                 Base(actual, target) + CreatedPorts(actual, target) - Gone(actual, target)
                 + PushedPorts(actual, target, Kept(actual, target)))
  {
  }

  lemma StepsMakeTargetAfter(actual: Site, target: Site)
    ensures TargetAfter(actual, target)
         == Site(target.subnet,
                 target.ports + CreatedPorts(actual, target) + BackPorts(actual, target, Kept(actual, target)))
  {
  }

  /** The row of a created port differs from what the driver returned in its status only. */
  lemma CreatedRow(target: Site, created: seq<Port>, i: nat)
    requires i < |created|
    requires forall p | p in created :: p.uuid in target.ports && p == target.ports[p.uuid].(status := Active)
    ensures var site := target.ports + Table(created[..i], PortKey);
            var p := created[i];
            && p.uuid in site
            && site[p.uuid].(status := p.status, ipv4 := p.ipv4, mask := p.mask, mac := p.mac) == p
            && target.ports + Table(created[..i + 1], PortKey) == site[p.uuid := p]
  {
    var p := created[i];
    assert created[..i + 1][..i] == created[..i];
    AddThenPut(target.ports, Table(created[..i], PortKey), p.uuid, p);
    TableKeys(created[..i], PortKey);
    assert p in created;
    if p.uuid in Table(created[..i], PortKey) {
      var q := Table(created[..i], PortKey)[p.uuid];
      assert q in created[..i] && q in created;
    }
  }

  lemma CreatedElsewhere(actual: Site, target: Site, created: seq<Port>)
    requires forall p | p in created :: p.uuid in Missing(actual, target)
    ensures forall v | v in Kept(actual, target) :: (target.ports + Table(created, PortKey))[v] == target.ports[v]
  {
    TableKeys(created, PortKey);
  }

  lemma RowsStayConsistent(u: Uuid, actual: Site, target: Site, created: seq<Port>)
    requires ConsistentSite(u, target)
    requires forall p | p in created :: p.uuid in target.ports && p == target.ports[p.uuid].(status := Active)
    ensures ConsistentSite(u, Site(target.subnet,
              target.ports + Table(created, PortKey) + BackPorts(actual, target, Kept(actual, target))))
  {
    TableKeys(created, PortKey);
  }

  lemma PutPort(plane: Plane, u: Uuid, subnet: Subnet, ports: map<Uuid, Port>, p: Port)
    requires p.subnet == u
    ensures WithPort(plane[u := Site(subnet, ports)], p) == plane[u := Site(subnet, ports[p.uuid := p])]
  {
    PutTwice(plane, u, Site(subnet, ports), Site(subnet, ports[p.uuid := p]));
  }

  lemma OneMorePushed(actual: Site, target: Site, done: set<Uuid>, v: Uuid)
    requires done <= Kept(actual, target) && v in Kept(actual, target)
    ensures PushedPorts(actual, target, done + {v})
         == if Pushed(actual, target, v) then PushedPorts(actual, target, done)[v := target.ports[v].(status := Active)]
            else PushedPorts(actual, target, done)
    ensures BackPorts(actual, target, done + {v})
         == BackPorts(actual, target, done)[v := WrittenBack(target.ports[v], actual.ports[v])]
  {
    if v in done && Pushed(actual, target, v) {
      assert PushedPorts(actual, target, done)[v] == target.ports[v].(status := Active);
    }
  }

  /** One iteration of the last loop, on the tables of both sides. */
  lemma OneMorePort(actual: Site, target: Site, done: set<Uuid>, v: Uuid, ports: map<Uuid, Port>, rows: map<Uuid, Port>)
    requires done <= Kept(actual, target) && v in Kept(actual, target) && v !in done
    requires v in rows && rows[v] == target.ports[v]
    ensures ports + PushedPorts(actual, target, done + {v})
         == var pushed := ports + PushedPorts(actual, target, done);
            if Pushed(actual, target, v) then pushed[v := target.ports[v].(status := Active)] else pushed
    ensures var back := rows + BackPorts(actual, target, done);
            && back[v] == target.ports[v]
            && rows + BackPorts(actual, target, done + {v}) == back[v := WrittenBack(target.ports[v], actual.ports[v])]
  {
    OneMorePushed(actual, target, done, v);
    AddThenPut(ports, PushedPorts(actual, target, done), v, target.ports[v].(status := Active));
    AddThenPut(rows, BackPorts(actual, target, done), v, WrittenBack(target.ports[v], actual.ports[v]));
  }

  /** The row of a subnet with part of its ports written back. */
  ghost function SiteBack(actual: Site, target: Site, row: Site, done: set<Uuid>): Site
    requires done <= Kept(actual, target)
  {
    Site(row.subnet, row.ports + BackPorts(actual, target, done))
  }

  ghost function PortsPushed(actual: Site, target: Site, ports: map<Uuid, Port>, done: set<Uuid>): map<Uuid, Port>
    requires done <= Kept(actual, target)
  {
    ports + PushedPorts(actual, target, done)
  }

  lemma NoPortYet(actual: Site, target: Site, row: Site, ports: map<Uuid, Port>)
    ensures SiteBack(actual, target, row, {}) == row && PortsPushed(actual, target, ports, {}) == ports
  {
    AddNothing(row.ports);
    AddNothing(ports);
    assert BackPorts(actual, target, {}) == map[] && PushedPorts(actual, target, {}) == map[];
  }

  lemma OnePortBack(rows: Plane, u: Uuid, actual: Site, target: Site, row: Site, done: set<Uuid>, v: Uuid)
    requires done <= Kept(actual, target) && v in Kept(actual, target) && v !in done
    requires v in row.ports && row.ports[v] == target.ports[v]
    ensures var back := SiteBack(actual, target, row, done);
            && v in back.ports && back.ports[v] == target.ports[v]
            && rows[u := back][u := Site(back.subnet, back.ports[v := WrittenBack(target.ports[v], actual.ports[v])])] ==
               rows[u := SiteBack(actual, target, row, done + {v})]
  {
    OneMorePort(actual, target, done, v, row.ports, row.ports);
    PutTwice(rows, u, SiteBack(actual, target, row, done), SiteBack(actual, target, row, done + {v}));
  }

  lemma OnePortPushed(plane: Plane, u: Uuid, subnet: Subnet, actual: Site, target: Site, ports: map<Uuid, Port>,
                      done: set<Uuid>, v: Uuid)
    requires done <= Kept(actual, target) && v in Kept(actual, target)
    requires target.ports[v].uuid == v && target.ports[v].subnet == u
    ensures var now, t := plane[u := Site(subnet, PortsPushed(actual, target, ports, done))], target.ports[v];
            (if Pushed(actual, target, v) then WithPort(now, t.(status := Active)) else now) ==
            plane[u := Site(subnet, PortsPushed(actual, target, ports, done + {v}))]
  {
    var t := target.ports[v].(status := Active);
    OneMorePushed(actual, target, done, v);
    AddThenPut(ports, PushedPorts(actual, target, done), v, t);
    PutPort(plane, u, subnet, PortsPushed(actual, target, ports, done), t);
  }

  function AllActive(ports: map<Uuid, Port>): map<Uuid, Port> {
    map v | v in ports :: ports[v].(status := Active)
  }

  lemma AllActivePut(ports: map<Uuid, Port>, p: Port)
    ensures AllActive(ports[p.uuid := p]) == AllActive(ports)[p.uuid := p.(status := Active)]
  {
  }

  lemma {:induction false} ActivatedTable(ports: seq<Port>)
    ensures Table(Activated(ports), PortKey) == AllActive(Table(ports, PortKey))
  {
    if ports != [] {
      var k := |ports| - 1;
      ActivatedTable(ports[..k]);
      TableAppend(Activated(ports[..k]), PortKey, ports[k].(status := Active));
      AllActivePut(Table(ports[..k], PortKey), ports[k]);
    }
  }

  lemma {:induction false} ActivatedElements(ports: seq<Port>)
    ensures forall p | p in Activated(ports) :: exists q :: q in ports && p == q.(status := Active)
  {
    if ports != [] {
      var k := |ports| - 1;
      ActivatedElements(ports[..k]);
      assert ports == ports[..k] + [ports[k]];
    }
  }

  lemma ExtraKeys(actual: Site, target: Site, extra: seq<Port>)
    requires Table(extra, PortKey) == map v | v in Gone(actual, target) :: actual.ports[v]
    requires forall p | p in extra :: p.uuid in Gone(actual, target)
    ensures Keys(extra) == Gone(actual, target)
  {
    TableKeys(extra, PortKey);
    forall v | v in Gone(actual, target)
      ensures v in Keys(extra)
    {
      assert v in Table(extra, PortKey);
    }
  }

  ghost predicate IsBatch(actual: Site, target: Site, batch: seq<Port>) {
    && Table(batch, PortKey) == (map v | v in Missing(actual, target) :: target.ports[v])
    && forall p | p in batch :: p.uuid in Missing(actual, target) && p == target.ports[p.uuid]
  }

  /** The batch of missing ports: rejected as a whole, or what `CreatedPorts` says. */
  lemma BatchAcceptance(actual: Site, target: Site, batch: seq<Port>)
    requires IsBatch(actual, target, batch)
    ensures AllConfigured(batch) <==> BatchAccepted(actual, target)
    ensures batch == [] || !AllConfigured(batch) ==> CreatedPorts(actual, target) == map[]
  {
    TableKeys(batch, PortKey);
    forall v | v in Missing(actual, target)
      ensures target.ports[v] in batch
    {
      assert v in Table(batch, PortKey);
    }
  }

  lemma BatchTable(actual: Site, target: Site, batch: seq<Port>)
    requires IsBatch(actual, target, batch) && BatchAccepted(actual, target)
    ensures Table(Activated(batch), PortKey) == CreatedPorts(actual, target)
  {
    ActivatedTable(batch);
  }

  lemma BatchPorts(actual: Site, target: Site, u: Uuid, batch: seq<Port>)
    requires ConsistentSite(u, target) && IsBatch(actual, target, batch)
    ensures forall p | p in batch :: p.subnet == u && p.uuid !in actual.ports
    ensures forall p | p in Activated(batch) :: p.subnet == u && p.uuid in Missing(actual, target)
    ensures forall p | p in Activated(batch) :: p == target.ports[p.uuid].(status := Active)
  {
    ActivatedElements(batch);
  }

  lemma BatchEffect(plane: Plane, u: Uuid, site: Site, batch: seq<Port>)
    requires Distinct(batch, PortKey)
    requires forall p | p in batch :: p.subnet == u && p.uuid !in site.ports
    requires forall p | p in Activated(batch) :: p.subnet == u
    ensures NewTo(plane[u := site], batch)
    ensures WithPorts(plane[u := site], Activated(batch))
         == plane[u := Site(site.subnet, site.ports + Table(Activated(batch), PortKey))]
  {
    WithBatch(plane[u := site], u, Activated(batch));
    PutTwice(plane, u, site, Site(site.subnet, site.ports + Table(Activated(batch), PortKey)));
  }

  // ---- The steps of one network ----

  ghost function NewSites(w: World, us: set<Uuid>): Plane
    requires us <= w.target.Keys
  {
    map u | u in us && w.target[u].subnet.described :: Site(w.target[u].subnet, map[])
  }

  lemma NewSitesStep(w: World, done: set<Uuid>, u: Uuid)
    requires done <= w.target.Keys && u in w.target
    ensures w.plane + NewSites(w, done + {u})
         == if w.target[u].subnet.described then (w.plane + NewSites(w, done))[u := Site(w.target[u].subnet, map[])]
            else w.plane + NewSites(w, done)
  {
    if w.target[u].subnet.described {
      AddThenPut(w.plane, NewSites(w, done), u, Site(w.target[u].subnet, map[]));
      assert NewSites(w, done + {u}) == NewSites(w, done)[u := Site(w.target[u].subnet, map[])];
    } else {
      assert NewSites(w, done + {u}) == NewSites(w, done);
    }
  }

  // The subnets of `done` are pushed, the other common ones are as they were.

  ghost function PartlyPushed(w: World, done: set<Uuid>): Plane {
    map u | u in w.target && Present(w, u) ::
      if u !in w.plane then Site(w.target[u].subnet, map[])
      else if u in done then SiteAfter(w.plane[u], w.target[u])
      else w.plane[u]
  }

  ghost function PartlyWrittenBack(w: World, done: set<Uuid>): Plane {
    map u | u in w.target ::
      if u in w.plane && u in done then TargetAfter(w.plane[u], w.target[u]) else w.target[u]
  }

  lemma NoneYet(w: World)
    ensures PartlyWrittenBack(w, {}) == w.target
    ensures PartlyPushed(w, {})
         == w.plane + NewSites(w, w.target.Keys - w.plane.Keys) - (w.plane.Keys - w.target.Keys)
  {
  }

  lemma OneMorePushedSubnet(w: World, done: set<Uuid>, u: Uuid)
    requires u in w.target && u in w.plane && u !in done
    ensures PartlyPushed(w, done)[u] == w.plane[u]
    ensures PartlyPushed(w, done + {u}) == PartlyPushed(w, done)[u := SiteAfter(w.plane[u], w.target[u])]
  {
  }

  lemma OneMoreWrittenBack(w: World, done: set<Uuid>, u: Uuid)
    requires u in w.target && u in w.plane && u !in done
    ensures PartlyWrittenBack(w, done)[u] == w.target[u]
    ensures PartlyWrittenBack(w, done + {u}) == PartlyWrittenBack(w, done)[u := TargetAfter(w.plane[u], w.target[u])]
  {
  }

  lemma AllSubnets(w: World)
    ensures var common := w.plane.Keys * w.target.Keys;
            World(PartlyPushed(w, common), PartlyWrittenBack(w, common)) == Reconciled(w)
  {
  }

  ghost function PushedSubnet(actual: Site, target: Site): Subnet {
    if Wiped(actual.subnet, target.subnet) then target.subnet else actual.subnet
  }

  ghost function PortsInSync(actual: Site, target: Site): map<Uuid, Port> {
    Base(actual, target) + CreatedPorts(actual, target) - Gone(actual, target)
  }

  class NetworkService {
    /** The database rows of one network. */
    var target: Plane

    constructor (rows: Plane)
      ensures target == rows
    {
      target := rows;
    }

    /** Pushes one subnet that both sides know; `actualSubnet` is the driver's listing. */
    method ActualizeSubnet(driver: FlatBridgeDriver, u: Uuid, actualSubnet: Subnet)
      requires driver.Valid() && Consistent(target) && u in target && actualSubnet.uuid == u
      requires driver.serviceUp ==> u in driver.Plane() && driver.Plane()[u].subnet == actualSubnet
      modifies this, driver
      ensures driver.Valid() && driver.serviceUp == old(driver.serviceUp)
      ensures Consistent(target) && target.Keys == old(target.Keys)
      ensures driver.serviceUp ==>
                && driver.Plane() == old(driver.Plane())[u := SiteAfter(old(driver.Plane()[u]), old(target[u]))]
                && target == old(target)[u := TargetAfter(old(driver.Plane()[u]), old(target[u]))]
    {
      var listed := driver.ListPorts(actualSubnet);
      TableKeys(listed, PortKey);
      PushSite(driver, u, Site(actualSubnet, Table(listed, PortKey)), target[u]);
    }

    method PushSite(driver: FlatBridgeDriver, u: Uuid, actual: Site, wanted: Site)
      requires driver.Valid() && Consistent(target) && u in target && target[u] == wanted
      requires forall v | v in actual.ports :: actual.ports[v].uuid == v && actual.ports[v].subnet == u
      requires driver.serviceUp ==> u in driver.Plane() && driver.Plane()[u] == actual
      modifies this, driver
      ensures driver.Valid() && driver.serviceUp == old(driver.serviceUp)
      ensures Consistent(target) && target.Keys == old(target.Keys)
      ensures driver.serviceUp ==>
                driver.Plane() == old(driver.Plane())[u := SiteAfter(actual, wanted)]
                && target == old(target)[u := TargetAfter(actual, wanted)]
    {
      ghost var plane, rows := driver.Plane(), target;
      var created := SyncPorts(driver, u, actual, wanted, plane);
      CreatedElsewhere(actual, wanted, created);
      ActualizePorts(driver, u, actual, wanted, PushedSubnet(actual, wanted), PortsInSync(actual, wanted), plane);
      PutTwice(rows, u, Site(wanted.subnet, wanted.ports + Table(created, PortKey)),
               Site(wanted.subnet, wanted.ports + Table(created, PortKey) + BackPorts(actual, wanted, Kept(actual, wanted))));
      RowsStayConsistent(u, actual, wanted, created);
      StepsMakeSiteAfter(actual, wanted);
      StepsMakeTargetAfter(actual, wanted);
    }

    /** The subnet itself, the missing ports and the extra ones. */
    method SyncPorts(driver: FlatBridgeDriver, u: Uuid, actual: Site, wanted: Site, ghost plane: Plane) returns (created: seq<Port>)
      requires driver.Valid() && ConsistentSite(u, wanted) && u in target && target[u] == wanted
      requires forall v | v in actual.ports :: actual.ports[v].uuid == v && actual.ports[v].subnet == u
      requires driver.serviceUp ==> u in plane && driver.Plane() == plane && plane[u] == actual
      modifies this, driver
      ensures driver.Valid() && driver.serviceUp == old(driver.serviceUp)
      ensures driver.serviceUp ==> Table(created, PortKey) == CreatedPorts(actual, wanted)
      ensures forall p | p in created :: p.uuid in Missing(actual, wanted) && p == wanted.ports[p.uuid].(status := Active)
      ensures target == old(target)[u := Site(wanted.subnet, wanted.ports + Table(created, PortKey))]
      ensures driver.serviceUp ==>
                driver.Plane() == plane[u := Site(PushedSubnet(actual, wanted), PortsInSync(actual, wanted))]
    {
      ghost var subnet, ports := PushedSubnet(actual, wanted), Base(actual, wanted);
      RefreshSubnet(driver, u, actual, wanted, plane);
      created := CreateMissing(driver, u, actual, wanted, subnet, ports, plane);
      WriteBackCreated(u, wanted, created);
      DeleteExtra(driver, u, actual, wanted, subnet, ports + CreatedPorts(actual, wanted), plane);
    }

    method RefreshSubnet(driver: FlatBridgeDriver, u: Uuid, actual: Site, wanted: Site, ghost plane: Plane)
      requires driver.Valid() && wanted.subnet.uuid == u && u in target && target[u] == wanted
      requires driver.serviceUp ==> u in plane && driver.Plane() == plane && plane[u] == actual
      modifies this, driver
      ensures driver.Valid() && driver.serviceUp == old(driver.serviceUp)
      ensures target == old(target)
      ensures driver.serviceUp ==> driver.Plane() == plane[u := Site(PushedSubnet(actual, wanted), Base(actual, wanted))]
    {
      if driver.serviceUp {
        PutBack(plane, u, actual);
      }
      if Outdated(actual.subnet, wanted.subnet) {
        var updated := driver.UpdateSubnet(wanted.subnet);
        if updated.Ok? {
          PutBack(target, u, wanted);
          target := target[u := Site(wanted.subnet.(cidr := updated.value.cidr, nextServer := updated.value.nextServer),
                                     wanted.ports)];
        }
      }
    }

    method WriteBackCreated(u: Uuid, wanted: Site, created: seq<Port>)
      requires u in target && target[u] == wanted
      requires forall p | p in created :: p.uuid in wanted.ports && p == wanted.ports[p.uuid].(status := Active)
      modifies this
      ensures target == old(target)[u := Site(wanted.subnet, wanted.ports + Table(created, PortKey))]
    {
      ghost var rows := target;
      AddNothing(wanted.ports);
      PutBack(rows, u, wanted);
      for i := 0 to |created|
        invariant target == rows[u := Site(wanted.subnet, wanted.ports + Table(created[..i], PortKey))]
      {
        var p := created[i];
        var site := target[u];
        CreatedRow(wanted, created, i);
        var row := site.ports[p.uuid].(status := p.status, ipv4 := p.ipv4, mask := p.mask, mac := p.mac);
        PutTwice(rows, u, site, Site(site.subnet, site.ports[p.uuid := row]));
        target := target[u := Site(site.subnet, site.ports[p.uuid := row])];
      }
      assert created[..|created|] == created;
    }

    method CreateMissing(driver: FlatBridgeDriver, u: Uuid, actual: Site, wanted: Site,
                         ghost subnet: Subnet, ghost base: map<Uuid, Port>, ghost plane: Plane)
      returns (created: seq<Port>)
      requires driver.Valid() && ConsistentSite(u, wanted)
      requires base.Keys <= actual.ports.Keys
      requires driver.serviceUp ==> driver.Plane() == plane[u := Site(subnet, base)]
      modifies driver
      ensures driver.Valid() && driver.serviceUp == old(driver.serviceUp)
      ensures driver.serviceUp ==> Table(created, PortKey) == CreatedPorts(actual, wanted)
      ensures forall p | p in created :: p.uuid in Missing(actual, wanted) && p == wanted.ports[p.uuid].(status := Active)
      ensures driver.serviceUp ==> driver.Plane() == plane[u := Site(subnet, base + CreatedPorts(actual, wanted))]
    {
      var batch := PortsFor(wanted.ports, Missing(actual, wanted));
      created := [];
      BatchAcceptance(actual, wanted, batch);
      BatchPorts(actual, wanted, u, batch);
      if BatchAccepted(actual, wanted) {
        BatchTable(actual, wanted, batch);
      }
      if driver.serviceUp {
        BatchEffect(plane, u, Site(subnet, base), batch);
        AddNothing(base);
      }
      if |batch| > 0 {
        var r := driver.CreatePorts(batch);
        if r.Ok? {
          created := r.value;
        }
      }
    }

    method DeleteExtra(driver: FlatBridgeDriver, u: Uuid, actual: Site, wanted: Site,
                       ghost subnet: Subnet, ghost ports: map<Uuid, Port>, ghost plane: Plane)
      requires driver.Valid()
      requires forall v | v in actual.ports :: actual.ports[v].uuid == v && actual.ports[v].subnet == u
      requires driver.serviceUp ==> driver.Plane() == plane[u := Site(subnet, ports)]
      modifies driver
      ensures driver.Valid() && driver.serviceUp == old(driver.serviceUp)
      ensures driver.serviceUp ==> driver.Plane() == plane[u := Site(subnet, ports - Gone(actual, wanted))]
    {
      var extra := PortsFor(actual.ports, Gone(actual, wanted));
      ExtraKeys(actual, wanted, extra);
      if driver.serviceUp {
        WithoutBatch(driver.Plane(), u, extra);
        PutTwice(plane, u, Site(subnet, ports), Site(subnet, ports - Keys(extra)));
        RemoveNothing(ports);
      }
      if |extra| > 0 {
        var _ := driver.DeletePorts(extra);
      }
    }

    method ActualizePorts(driver: FlatBridgeDriver, u: Uuid, actual: Site, wanted: Site,
                          ghost subnet: Subnet, ghost ports: map<Uuid, Port>, ghost plane: Plane)
      requires driver.Valid() && u in target && ConsistentSite(u, wanted)
      requires forall v | v in Kept(actual, wanted) :: v in target[u].ports && target[u].ports[v] == wanted.ports[v]
      requires driver.serviceUp ==> driver.Plane() == plane[u := Site(subnet, ports)]
      modifies this, driver
      ensures driver.Valid() && driver.serviceUp == old(driver.serviceUp)
      ensures target == old(target)[u := Site(old(target)[u].subnet,
                          old(target)[u].ports + BackPorts(actual, wanted, Kept(actual, wanted)))]
      ensures driver.serviceUp ==>
                driver.Plane() == plane[u := Site(subnet, ports + PushedPorts(actual, wanted, Kept(actual, wanted)))]
    {
      ghost var rows, site := target, target[u];
      var todo := Kept(actual, wanted);
      ghost var done: set<Uuid> := {};
      NoPortYet(actual, wanted, site, ports);
      PutBack(rows, u, site);
      while todo != {}
        invariant todo <= Kept(actual, wanted) && done == Kept(actual, wanted) - todo
        invariant driver.Valid() && driver.serviceUp == old(driver.serviceUp)
        invariant target == rows[u := SiteBack(actual, wanted, site, done)]
        invariant driver.serviceUp ==> driver.Plane() == plane[u := Site(subnet, PortsPushed(actual, wanted, ports, done))]
        decreases |todo|
      {
        var v :| v in todo;
        OnePortBack(rows, u, actual, wanted, site, done, v);
        OnePortPushed(plane, u, subnet, actual, wanted, ports, done, v);
        ActualizePort(driver, u, v, actual.ports[v]);
        MoveOne(Kept(actual, wanted), todo, v);
        todo, done := todo - {v}, done + {v};
      }
      assert done == Kept(actual, wanted);
    }

    /** One port that both sides know. */
    method ActualizePort(driver: FlatBridgeDriver, u: Uuid, v: Uuid, actual: Port)
      requires driver.Valid() && u in target && v in target[u].ports
      requires driver.serviceUp ==> u in driver.Plane()
      modifies this, driver
      ensures driver.Valid() && driver.serviceUp == old(driver.serviceUp)
      ensures var t, site := old(target)[u].ports[v], old(target)[u];
              target == old(target)[u := Site(site.subnet, site.ports[v := WrittenBack(t, actual)])]
      ensures var t := old(target)[u].ports[v];
              driver.serviceUp ==>
                driver.Plane() == if AddressDiffers(t, actual) && Configured(t)
                                  then WithPort(old(driver.Plane()), t.(status := Active))
                                  else old(driver.Plane())
    {
      var site := target[u];
      var t := site.ports[v];
      if AddressDiffers(t, actual) {
        var _ := driver.UpdatePort(t);
      }
      if t.status != actual.status || AddressDiffers(t, actual) {
        target := target[u := Site(site.subnet,
                                   site.ports[v := t.(status := actual.status, ipv4 := actual.ipv4, mask := actual.mask)])];
      } else {
        PutBack(site.ports, v, WrittenBack(t, actual));
        PutBack(target, u, site);
      }
    }

    /** One network: create the subnets the data plane lacks, delete those the database
        lacks, push the others. */
    method ActualizeNetwork(driver: FlatBridgeDriver)
      requires driver.Valid() && Consistent(target)
      modifies this, driver
      ensures driver.Valid() && driver.serviceUp == old(driver.serviceUp)
      ensures Consistent(target) && target.Keys == old(target.Keys)
      ensures driver.serviceUp ==>
                World(driver.Plane(), target) == Reconciled(old(World(driver.Plane(), target)))
    {
      var listed := driver.ListSubnets();
      var actual := Table(listed, SubnetKey);
      TableKeys(listed, SubnetKey);
      ghost var w := World(driver.Plane(), target);

      CreateSubnets(driver, target.Keys - actual.Keys, w);
      DeleteSubnets(driver, actual, actual.Keys - target.Keys, w);

      ActualizeCommon(driver, actual, actual.Keys * target.Keys, w);
      if driver.serviceUp {
        assert actual.Keys * w.target.Keys == w.plane.Keys * w.target.Keys;
        AllSubnets(w);
      }
    }

    method ActualizeCommon(driver: FlatBridgeDriver, actual: map<Uuid, Subnet>, common: set<Uuid>, ghost w: World)
      requires driver.Valid() && Consistent(target) && target == w.target
      requires common <= actual.Keys * target.Keys && forall u | u in common :: actual[u].uuid == u
      requires driver.serviceUp ==> driver.Plane() == PartlyPushed(w, {})
      requires driver.serviceUp ==> forall u | u in common :: u in w.plane && w.plane[u].subnet == actual[u]
      modifies this, driver
      ensures driver.Valid() && driver.serviceUp == old(driver.serviceUp)
      ensures Consistent(target) && target.Keys == w.target.Keys
      ensures driver.serviceUp ==>
                driver.Plane() == PartlyPushed(w, common) && target == PartlyWrittenBack(w, common)
    {
      var todo := common;
      ghost var done: set<Uuid> := {};
      NoneYet(w);
      while todo != {}
        invariant todo <= common && done == common - todo
        invariant driver.Valid() && driver.serviceUp == old(driver.serviceUp)
        invariant Consistent(target) && target.Keys == w.target.Keys
        invariant driver.serviceUp ==> driver.Plane() == PartlyPushed(w, done) && target == PartlyWrittenBack(w, done)
        decreases |todo|
      {
        var u :| u in todo;
        if driver.serviceUp {
          OneMorePushedSubnet(w, done, u);
          OneMoreWrittenBack(w, done, u);
        }
        ActualizeSubnet(driver, u, actual[u]);
        MoveOne(common, todo, u);
        todo, done := todo - {u}, done + {u};
      }
      assert done == common;
    }

    method CreateSubnets(driver: FlatBridgeDriver, missing: set<Uuid>, ghost w: World)
      requires driver.Valid() && Consistent(target) && missing <= target.Keys && target == w.target
      requires driver.serviceUp ==> driver.Plane() == w.plane && missing !! w.plane.Keys
      modifies driver
      ensures driver.Valid() && driver.serviceUp == old(driver.serviceUp)
      ensures driver.serviceUp ==> driver.Plane() == w.plane + NewSites(w, missing)
    {
      var todo := missing;
      ghost var done: set<Uuid> := {};
      AddNothing(w.plane);
      while todo != {}
        invariant todo <= missing && done == missing - todo
        invariant driver.Valid() && driver.serviceUp == old(driver.serviceUp)
        invariant driver.serviceUp ==> driver.Plane() == w.plane + NewSites(w, done)
        decreases |todo|
      {
        var u :| u in todo;
        var _ := driver.CreateSubnet(target[u].subnet);
        NewSitesStep(w, done, u);
        MoveOne(missing, todo, u);
        todo, done := todo - {u}, done + {u};
      }
      assert done == missing;
    }

    method DeleteSubnets(driver: FlatBridgeDriver, actual: map<Uuid, Subnet>, extra: set<Uuid>, ghost w: World)
      requires driver.Valid() && extra <= actual.Keys && forall u | u in actual :: actual[u].uuid == u
      requires driver.serviceUp ==> driver.Plane() == w.plane + NewSites(w, w.target.Keys - w.plane.Keys)
      requires driver.serviceUp ==> extra == w.plane.Keys - w.target.Keys
      modifies driver
      ensures driver.Valid() && driver.serviceUp == old(driver.serviceUp)
      ensures driver.serviceUp ==> driver.Plane() == PartlyPushed(w, {})
    {
      ghost var plane := driver.Plane();
      var todo := extra;
      ghost var done: set<Uuid> := {};
      RemoveNothing(plane);
      while todo != {}
        invariant todo <= extra && done == extra - todo
        invariant driver.Valid() && driver.serviceUp == old(driver.serviceUp)
        invariant driver.serviceUp ==> driver.Plane() == plane - done
        decreases |todo|
      {
        var u :| u in todo;
        var _ := driver.DeleteSubnet(actual[u]);
        RemoveTwice(plane, done, u);
        MoveOne(extra, todo, u);
        todo, done := todo - {u}, done + {u};
      }
      assert done == extra;
      if driver.serviceUp {
        NoneYet(w);
      }
    }
  }
}
