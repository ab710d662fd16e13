/**
 The flat DHCP network driver: every call loads the stored context, edits it, renders the
 DHCP configuration, restarts the service and stores the context again.
 */
module FlatDriver {
  import opened Common
  import opened AddressPool
  import opened NetworkModels
  import opened Keyed

  function SubnetKey(s: Subnet): Uuid { s.uuid }

  function PortKey(p: Port): Uuid { p.uuid }

  /** `port_map` is a defaultdict: reading a missing subnet gives no ports. */
  datatype Context = Context(subnets: seq<Subnet>, portMap: map<Uuid, seq<Port>>) {
    function PortsOf(u: Uuid): seq<Port> {
      if u in portMap then portMap[u] else []
    }

    ghost predicate Lists(u: Uuid) {
      Has(subnets, SubnetKey, u)
    }

    ghost predicate Files(p: Port) {
      Has(PortsOf(p.subnet), PortKey, p.uuid)
    }

    /** A new subnet starts without ports, whatever its entry held before. */
    function AddSubnet(s: Subnet): Context {
      Context(subnets + [s], portMap[s.uuid := []])
    }

    ghost function DeleteSubnet(u: Uuid): Context {
      if Lists(u) then Context(Without(subnets, SubnetKey, u), portMap - {u}) else this
    }

    function AddPort(p: Port): Context {
      Context(subnets, portMap[p.subnet := PortsOf(p.subnet) + [p]])
    }

    ghost function DeletePort(p: Port): Context {
      if Files(p) then Context(subnets, portMap[p.subnet := Without(PortsOf(p.subnet), PortKey, p.uuid)]) else this
    }
  }

  const EMPTY := Context([], map[])

  /** The part of a port `dhcp_config` cannot do without. */
  predicate Configured(p: Port) {
    p.mac.Some? && p.ipv4.Some?
  }

  /** `dhcp_config` accepts the context: it goes through the name servers and the routers of
      every subnet, and needs both addresses of every port. */
  predicate Renderable(c: Context) {
    forall s | s in c.subnets :: s.described && AllConfigured(c.PortsOf(s.uuid))
  }

  predicate AllConfigured(ports: seq<Port>) {
    forall p | p in ports :: Configured(p)
  }

  /** No identifier is listed twice, and every port is filed under its own subnet. */
  ghost predicate Sound(c: Context) {
    && Distinct(c.subnets, SubnetKey)
    && (forall s | s in c.subnets :: s.uuid in c.portMap)
    && (forall u | u in c.portMap :: SoundPorts(u, c.portMap[u]))
  }

  ghost predicate SoundPorts(u: Uuid, ports: seq<Port>) {
    Distinct(ports, PortKey) && forall p | p in ports :: p.subnet == u
  }

  /** What every context the driver has stored satisfies. */
  ghost predicate WellFormed(c: Context) {
    Sound(c) && Renderable(c)
  }

  /** One subnet of the data plane with its ports by identifier. */
  datatype Site = Site(subnet: Subnet, ports: map<Uuid, Port>)

  type Plane = map<Uuid, Site>

  /** The data plane a context describes; list order does not matter to it. */
  function PlaneOf(c: Context): Plane {
    var subnets := Table(c.subnets, SubnetKey);
    map u | u in subnets :: Site(subnets[u], Table(c.PortsOf(u), PortKey))
  }

  datatype DriverError = SubnetAlreadyExists | PortAlreadyExists | NotRenderable | ReloadFailed

  /** The in-memory context of one driver call. */
  class DhcpContext {
    var subnets: seq<Subnet>
    var portMap: map<Uuid, seq<Port>>

    ghost function View(): Context
      reads this
    {
      Context(subnets, portMap)
    }

    constructor (c: Context)
      ensures View() == c
    {
      subnets, portMap := c.subnets, c.portMap;
    }

    function Ports(u: Uuid): (r: seq<Port>)
      reads this
      ensures r == View().PortsOf(u)
    {
      if u in portMap then portMap[u] else []
    }

    /** Model equality is equality of identifiers. */
    method AddSubnet(subnet: Subnet) returns (r: Result<(), DriverError>)
      modifies this
      ensures r == if old(View()).Lists(subnet.uuid) then Err(SubnetAlreadyExists) else Ok(())
      ensures View() == if r.Ok? then old(View()).AddSubnet(subnet) else old(View())
    {
      if exists s | s in subnets :: s.uuid == subnet.uuid {
        return Err(SubnetAlreadyExists);
      }
      assert !Has(subnets, SubnetKey, subnet.uuid);
      subnets := subnets + [subnet];
      portMap := portMap[subnet.uuid := []];
      return Ok(());
    }

    method DeleteSubnet(subnet: Subnet)
      modifies this
      ensures View() == old(View()).DeleteSubnet(subnet.uuid)
    {
      if !exists s | s in subnets :: s.uuid == subnet.uuid {
        assert !Has(subnets, SubnetKey, subnet.uuid);
        return;
      }
      subnets := Without(subnets, SubnetKey, subnet.uuid);
      portMap := portMap - {subnet.uuid};
    }

    method AddPort(port: Port) returns (r: Result<(), DriverError>)
      modifies this
      ensures r == if old(View()).Files(port) then Err(PortAlreadyExists) else Ok(())
      ensures View() == if r.Ok? then old(View()).AddPort(port) else old(View())
    {
      var ports := Ports(port.subnet);
      if exists p | p in ports :: p.uuid == port.uuid {
        return Err(PortAlreadyExists);
      }
      assert !Has(ports, PortKey, port.uuid);
      portMap := portMap[port.subnet := ports + [port]];
      return Ok(());
    }

    method DeletePort(port: Port)
      modifies this
      ensures View() == old(View()).DeletePort(port)
    {
      var ports := Ports(port.subnet);
      if !exists p | p in ports :: p.uuid == port.uuid {
        assert !Has(ports, PortKey, port.uuid);
        return;
      }
      portMap := portMap[port.subnet := Without(ports, PortKey, port.uuid)];
    }
  }

  // ---- The same edits, seen on the data plane ----

  function WithPort(pl: Plane, p: Port): Plane {
    if p.subnet in pl then pl[p.subnet := Site(pl[p.subnet].subnet, pl[p.subnet].ports[p.uuid := p])] else pl
  }

  function WithPorts(pl: Plane, ports: seq<Port>): Plane {
    if ports == [] then pl
    else WithPort(WithPorts(pl, ports[..|ports| - 1]), ports[|ports| - 1])
  }

  function WithoutPort(pl: Plane, p: Port): Plane {
    if p.subnet in pl then pl[p.subnet := Site(pl[p.subnet].subnet, pl[p.subnet].ports - {p.uuid})] else pl
  }

  function WithoutPorts(pl: Plane, ports: seq<Port>): Plane {
    if ports == [] then pl
    else WithoutPort(WithoutPorts(pl, ports[..|ports| - 1]), ports[|ports| - 1])
  }

  lemma PlaneKeys(c: Context)
    requires Sound(c)
    ensures forall u :: u in PlaneOf(c) <==> c.Lists(u)
    ensures forall u | u in PlaneOf(c) :: u in c.portMap && PlaneOf(c)[u].subnet in c.subnets
    ensures forall u | u in PlaneOf(c) :: PlaneOf(c)[u].subnet.uuid == u
  {
    TableKeys(c.subnets, SubnetKey);
  }

  lemma PlanePorts(c: Context, u: Uuid)
    requires Sound(c) && u in PlaneOf(c)
    ensures forall v :: v in PlaneOf(c)[u].ports <==> Has(c.PortsOf(u), PortKey, v)
    ensures forall v | v in PlaneOf(c)[u].ports :: PlaneOf(c)[u].ports[v] in c.PortsOf(u)
    ensures forall p | p in c.PortsOf(u) :: p.uuid in PlaneOf(c)[u].ports && PlaneOf(c)[u].ports[p.uuid] == p
  {
    PlaneKeys(c);
    TableKeys(c.PortsOf(u), PortKey);
    TableHolds(c.PortsOf(u), PortKey);
  }

  lemma AddSubnetSound(c: Context, s: Subnet)
    requires Sound(c) && !c.Lists(s.uuid)
    ensures Sound(c.AddSubnet(s)) && (Renderable(c) ==> (Renderable(c.AddSubnet(s)) <==> s.described))
  {
    assert s in c.AddSubnet(s).subnets;
    assert forall i | 0 <= i < |c.subnets| :: c.subnets[i] in c.subnets;
  }

  lemma AddSubnetOnPlane(c: Context, s: Subnet)
    requires Sound(c) && !c.Lists(s.uuid)
    ensures PlaneOf(c.AddSubnet(s)) == PlaneOf(c)[s.uuid := Site(s, map[])]
  {
    TableAppend(c.subnets, SubnetKey, s);
    TableKeys(c.subnets, SubnetKey);
  }

  lemma DeleteSubnetSound(c: Context, u: Uuid)
    requires Sound(c)
    ensures Sound(c.DeleteSubnet(u)) && !c.DeleteSubnet(u).Lists(u)
    ensures Renderable(c) ==> Renderable(c.DeleteSubnet(u))
  {
    WithoutElements(c.subnets, SubnetKey, u);
  }

  lemma DeleteSubnetTable(c: Context, u: Uuid)
    requires Sound(c)
    ensures Table(c.DeleteSubnet(u).subnets, SubnetKey) == Table(c.subnets, SubnetKey) - {u}
  {
    if c.Lists(u) {
      WithoutTable(c.subnets, SubnetKey, u);
    } else {
      TableKeys(c.subnets, SubnetKey);
      RemoveAbsent(Table(c.subnets, SubnetKey), u);
    }
  }

  lemma DeleteSubnetOnPlane(c: Context, u: Uuid)
    requires Sound(c)
    ensures PlaneOf(c.DeleteSubnet(u)) == PlaneOf(c) - {u}
  {
    assert Table(c.DeleteSubnet(u).subnets, SubnetKey) == Table(c.subnets, SubnetKey) - {u} by {
      DeleteSubnetTable(c, u);
    }
    assert forall v | v != u :: c.DeleteSubnet(u).PortsOf(v) == c.PortsOf(v);
  }

  lemma AddPortSound(c: Context, p: Port)
    requires Sound(c) && !c.Files(p)
    ensures Sound(c.AddPort(p))
  {
    var ports := c.PortsOf(p.subnet);
    assert SoundPorts(p.subnet, ports);
    assert forall i | 0 <= i < |ports| :: ports[i] in ports;
    assert SoundPorts(p.subnet, ports + [p]);
  }

  lemma AddPortOnPlane(c: Context, p: Port)
    ensures PlaneOf(c.AddPort(p)) == WithPort(PlaneOf(c), p)
  {
    TableAppend(c.PortsOf(p.subnet), PortKey, p);
  }

  lemma DeletePortSound(c: Context, p: Port)
    requires Sound(c)
    ensures Sound(c.DeletePort(p)) && !c.DeletePort(p).Files(p)
    ensures Renderable(c) ==> Renderable(c.DeletePort(p))
  {
    WithoutElements(c.PortsOf(p.subnet), PortKey, p.uuid);
  }

  lemma DeletePortTable(c: Context, p: Port)
    requires Sound(c)
    ensures Table(c.DeletePort(p).PortsOf(p.subnet), PortKey) == Table(c.PortsOf(p.subnet), PortKey) - {p.uuid}
  {
    var ports := c.PortsOf(p.subnet);
    assert SoundPorts(p.subnet, ports);
    if c.Files(p) {
      WithoutTable(ports, PortKey, p.uuid);
    } else {
      TableKeys(ports, PortKey);
      RemoveAbsent(Table(ports, PortKey), p.uuid);
    }
  }

  lemma DeletePortOnPlane(c: Context, p: Port)
    requires Sound(c)
    ensures PlaneOf(c.DeletePort(p)) == WithoutPort(PlaneOf(c), p)
  {
    DeletePortTable(c, p);
    OneSubnetChanged(c, c.DeletePort(p), p.subnet);
  }

  /** Contexts that differ in the ports of one subnet. */
  lemma OneSubnetChanged(c: Context, d: Context, u: Uuid)
    requires d.subnets == c.subnets && forall v | v != u :: d.PortsOf(v) == c.PortsOf(v)
    ensures PlaneOf(d) == if u in PlaneOf(c) then PlaneOf(c)[u := Site(PlaneOf(c)[u].subnet, Table(d.PortsOf(u), PortKey))]
                          else PlaneOf(c)
  {
  }

  lemma {:induction false} ReplaceSubnetOnPlane(c: Context, s: Subnet)
    requires WellFormed(c)
    ensures !c.DeleteSubnet(s.uuid).Lists(s.uuid)
    ensures Sound(c.DeleteSubnet(s.uuid).AddSubnet(s))
    ensures Renderable(c.DeleteSubnet(s.uuid).AddSubnet(s)) <==> s.described
    ensures PlaneOf(c.DeleteSubnet(s.uuid).AddSubnet(s)) == PlaneOf(c)[s.uuid := Site(s, map[])]
  {
    var d := c.DeleteSubnet(s.uuid);
    DeleteSubnetSound(c, s.uuid);
    AddSubnetSound(d, s);
    assert PlaneOf(d.AddSubnet(s)) == PlaneOf(c)[s.uuid := Site(s, map[])] by {
      DeleteSubnetOnPlane(c, s.uuid);
      AddSubnetOnPlane(d, s);
      RemoveThenPut(PlaneOf(c), s.uuid, Site(s, map[]));
    }
  }

  lemma {:induction false} ReplacePortOnPlane(c: Context, p: Port)
    requires WellFormed(c)
    ensures !c.DeletePort(p).Files(p)
    ensures Sound(c.DeletePort(p).AddPort(p))
    ensures p.subnet in PlaneOf(c) ==> (Renderable(c.DeletePort(p).AddPort(p)) <==> Configured(p))
    ensures PlaneOf(c.DeletePort(p).AddPort(p)) == WithPort(PlaneOf(c), p)
  {
    var d := c.DeletePort(p);
    DeletePortSound(c, p);
    DeletePortOnPlane(c, p);
    AddPortSound(d, p);
    AddPortOnPlane(d, p);
    ReplacePort(PlaneOf(c), p);
    RenderableOnPlane(c);
    RenderableOnPlane(d.AddPort(p));
    if p.subnet in PlaneOf(c) {
      RenderableReplaced(PlaneOf(c), p);
    }
  }

  lemma ReplacePort(pl: Plane, p: Port)
    ensures WithPort(WithoutPort(pl, p), p) == WithPort(pl, p)
  {
    if p.subnet in pl {
      RemoveThenPut(pl[p.subnet].ports, p.uuid, p);
    }
  }

  lemma RenderableReplaced(pl: Plane, p: Port)
    requires RenderablePlane(pl) && p.subnet in pl
    ensures RenderablePlane(WithPort(pl, p)) <==> Configured(p)
  {
    assert WithPort(pl, p)[p.subnet].ports[p.uuid] == p;
  }

  ghost predicate RenderablePlane(pl: Plane) {
    && (forall u | u in pl :: pl[u].subnet.described)
    && (forall u, v | u in pl && v in pl[u].ports :: Configured(pl[u].ports[v]))
  }

  lemma RenderableOnPlane(c: Context)
    requires Sound(c)
    ensures Renderable(c) <==> RenderablePlane(PlaneOf(c))
  {
    PlaneKeys(c);
    forall u | u in PlaneOf(c) {
      PlanePorts(c, u);
    }
    if RenderablePlane(PlaneOf(c)) {
      TableHolds(c.subnets, SubnetKey);
      forall s | s in c.subnets
        ensures s.described && AllConfigured(c.PortsOf(s.uuid))
      {
        assert c.Lists(s.uuid) && PlaneOf(c)[s.uuid].subnet == s;
        assert forall p | p in c.PortsOf(s.uuid) :: PlaneOf(c)[s.uuid].ports[p.uuid] == p;
      }
    }
  }

  /** The ports are all missing from their (listed) subnets, and each is named once. */
  ghost predicate NewTo(pl: Plane, ports: seq<Port>) {
    && Distinct(ports, PortKey)
    && (forall p | p in ports :: p.subnet in pl && p.uuid !in pl[p.subnet].ports)
  }

  function Activated(ports: seq<Port>): (r: seq<Port>)
    ensures |r| == |ports|
    ensures forall i | 0 <= i < |ports| :: r[i] == ports[i].(status := Active)
  {
    if ports == [] then [] else Activated(ports[..|ports| - 1]) + [ports[|ports| - 1].(status := Active)]
  }

  lemma {:induction false} WithPortsAre(pl: Plane, ports: seq<Port>)
    requires NewTo(pl, ports)
    ensures var pl' := WithPorts(pl, ports);
            && pl'.Keys == pl.Keys
            && (forall p | p in ports :: p.uuid in pl'[p.subnet].ports && pl'[p.subnet].ports[p.uuid] == p)
            && (forall u, v | u in pl' && v in pl'[u].ports ::
                  pl'[u].ports[v] in ports || (v in pl[u].ports && pl[u].ports[v] == pl'[u].ports[v]))
            && (forall u, v | u in pl && v in pl[u].ports :: v in pl'[u].ports && pl'[u].ports[v] == pl[u].ports[v])
  {
    if ports != [] {
      var k := |ports| - 1;
      assert ports == ports[..k] + [ports[k]];
      WithPortsAre(pl, ports[..k]);
    }
  }

  lemma RenderableWithPorts(pl: Plane, ports: seq<Port>)
    requires NewTo(pl, ports) && RenderablePlane(pl)
    ensures RenderablePlane(WithPorts(pl, ports)) <==> AllConfigured(ports)
  {
    WithPortsAre(pl, ports);
  }

  lemma {:induction false} Untouched(pl: Plane, done: seq<Port>, u: Uuid, v: Uuid)
    requires u in pl && v !in pl[u].ports && forall p | p in done :: p.uuid != v
    ensures u in WithPorts(pl, done) && v !in WithPorts(pl, done)[u].ports
  {
    if done != [] {
      Untouched(pl, done[..|done| - 1], u, v);
      assert done[|done| - 1] in done;
    }
  }

  lemma NotAmongEarlier(pl: Plane, ports: seq<Port>, i: nat)
    requires i < |ports| && NewTo(pl, ports)
    ensures var p, next := ports[i], WithPorts(pl, Activated(ports[..i]));
            p.subnet in next && p.uuid !in next[p.subnet].ports
  {
    assert ports[i] in ports;
    Untouched(pl, Activated(ports[..i]), ports[i].subnet, ports[i].uuid);
  }

  /** A port that is new to the data plane can still be added after those before it. */
  lemma NotYetThere(c: Context, pl: Plane, ports: seq<Port>, i: nat)
    requires Sound(c) && i < |ports| && NewTo(pl, ports)
    requires PlaneOf(c) == WithPorts(pl, Activated(ports[..i]))
    ensures !c.Files(ports[i].(status := Active))
  {
    NotAmongEarlier(pl, ports, i);
    PlanePorts(c, ports[i].subnet);
  }

  /** One step of filing a batch. */
  lemma FilesNext(c: Context, pl: Plane, ports: seq<Port>, i: nat)
    requires Sound(c) && i < |ports| && PlaneOf(c) == WithPorts(pl, Activated(ports[..i]))
    ensures var p := ports[i].(status := Active);
            && Activated(ports[..i + 1]) == Activated(ports[..i]) + [p]
            && (NewTo(pl, ports) ==> !c.Files(p))
            && (!c.Files(p) ==> Sound(c.AddPort(p)) && PlaneOf(c.AddPort(p)) == WithPorts(pl, Activated(ports[..i + 1])))
  {
    assert ports[..i + 1][..i] == ports[..i];
    if NewTo(pl, ports) {
      NotYetThere(c, pl, ports, i);
    }
    PortAdded(c, pl, Activated(ports[..i]), ports[i].(status := Active));
  }

  lemma PortAdded(c: Context, pl: Plane, done: seq<Port>, p: Port)
    requires Sound(c) && PlaneOf(c) == WithPorts(pl, done)
    ensures !c.Files(p) ==> Sound(c.AddPort(p)) && PlaneOf(c.AddPort(p)) == WithPorts(pl, done + [p])
  {
    if !c.Files(p) {
      AddPortSound(c, p);
      AddPortOnPlane(c, p);
      assert (done + [p])[..|done|] == done;
    }
  }

  lemma CreatedRenderable(c: Context, before: Context, ports: seq<Port>)
    requires Sound(c) && WellFormed(before) && NewTo(PlaneOf(before), ports)
    requires PlaneOf(c) == WithPorts(PlaneOf(before), Activated(ports))
    ensures Renderable(c) <==> AllConfigured(ports)
  {
    ActivatedLike(PlaneOf(before), ports);
    RenderableOnPlane(c);
    RenderableOnPlane(before);
    RenderableWithPorts(PlaneOf(before), Activated(ports));
  }

  lemma ActivatedLike(pl: Plane, ports: seq<Port>)
    ensures NewTo(pl, ports) ==> NewTo(pl, Activated(ports))
    ensures AllConfigured(Activated(ports)) <==> AllConfigured(ports)
  {
    var active := Activated(ports);
    if AllConfigured(active) {
      forall i | 0 <= i < |ports|
        ensures Configured(ports[i])
      {
        assert active[i] in active;
      }
    }
    if AllConfigured(ports) {
      forall i | 0 <= i < |active|
        ensures Configured(active[i])
      {
        assert ports[i] in ports;
      }
    }
    forall p | p in active && NewTo(pl, ports)
      ensures p.subnet in pl && p.uuid !in pl[p.subnet].ports
    {
      var i :| 0 <= i < |active| && active[i] == p;
      assert ports[i] in ports;
    }
  }

  /** The driver with its two files: the stored context, and whether the hash stored in it is
      still that of the DHCP configuration.  `serviceUp` says that a restart succeeds. */
  class FlatBridgeDriver {
    var ctxFile: Option<Context>
    var hashMatches: bool
    var serviceUp: bool

    /** A missing context file is created, empty; an existing one was stored by the driver. */
    constructor (stored: Option<Context>, hashMatches: bool, serviceUp: bool)
      requires stored.Some? ==> WellFormed(stored.value)
      ensures Valid() && this.serviceUp == serviceUp
      ensures Stored() == if stored.Some? && hashMatches then stored.value else EMPTY
    {
      ctxFile := Some(if stored.Some? then stored.value else EMPTY);
      this.hashMatches, this.serviceUp := hashMatches, serviceUp;
    }

    ghost predicate Valid()
      reads this
    {
      ctxFile.Some? ==> WellFormed(ctxFile.value)
    }

    /** An unreadable or outdated context counts as empty. */
    function Stored(): Context
      reads this
    {
      if ctxFile.Some? && hashMatches then ctxFile.value else EMPTY
    }

    ghost function Plane(): Plane
      reads this
    {
      PlaneOf(Stored())
    }

    method LoadCtx() returns (ctx: DhcpContext)
      requires Valid()
      ensures fresh(ctx) && ctx.View() == Stored() && WellFormed(ctx.View())
    {
      ctx := new DhcpContext(Stored());
    }

    /** A failed restart leaves the new configuration with the old context. */
    method ApplyCfg(ctx: DhcpContext) returns (r: Result<(), DriverError>)
      requires Valid() && Sound(ctx.View())
      modifies this
      ensures Valid() && serviceUp == old(serviceUp)
      ensures r == if !Renderable(ctx.View()) then Err(NotRenderable)
                   else if !serviceUp then Err(ReloadFailed)
                   else Ok(())
      ensures r.Ok? ==> Stored() == ctx.View()
      ensures r.Err? ==> ctxFile == old(ctxFile)
      ensures r.Err? && serviceUp ==> Stored() == old(Stored())
    {
      if !Renderable(Context(ctx.subnets, ctx.portMap)) {
        return Err(NotRenderable);
      }
      if !serviceUp {
        hashMatches := *;
        return Err(ReloadFailed);
      }
      ctxFile, hashMatches := Some(Context(ctx.subnets, ctx.portMap)), true;
      return Ok(());
    }

    method ListSubnets() returns (subnets: seq<Subnet>)
      requires Valid()
      ensures Distinct(subnets, SubnetKey)
      ensures Table(subnets, SubnetKey).Keys == Plane().Keys
      ensures forall u | u in Plane() :: Table(subnets, SubnetKey)[u] == Plane()[u].subnet
    {
      subnets := Stored().subnets;
    }

    method ListPorts(subnet: Subnet) returns (ports: seq<Port>)
      requires Valid()
      ensures subnet.uuid in Plane() ==> Table(ports, PortKey) == Plane()[subnet.uuid].ports
      ensures forall p | p in ports :: p.subnet == subnet.uuid
    {
      assert subnet.uuid in Stored().portMap ==> SoundPorts(subnet.uuid, Stored().portMap[subnet.uuid]);
      ports := Stored().PortsOf(subnet.uuid);
    }

    method CreateSubnet(subnet: Subnet) returns (r: Result<Subnet, DriverError>)
      requires Valid()
      modifies this
      ensures Valid() && serviceUp == old(serviceUp)
      ensures serviceUp ==> (r.Ok? <==> subnet.uuid !in old(Plane()) && subnet.described)
      ensures r.Ok? ==> r.value == subnet && Plane() == old(Plane())[subnet.uuid := Site(subnet, map[])]
      ensures r.Err? && serviceUp ==> Plane() == old(Plane())
    {
      var ctx := LoadCtx();
      ghost var c := ctx.View();
      assert subnet.uuid in PlaneOf(c) <==> c.Lists(subnet.uuid) by {
        PlaneKeys(c);
      }
      var added := ctx.AddSubnet(subnet);
      if added.Err? {
        return Err(added.error);
      }
      AddSubnetOnPlane(c, subnet);
      assert Sound(ctx.View()) && (Renderable(ctx.View()) <==> subnet.described) by {
        AddSubnetSound(c, subnet);
      }
      var applied := ApplyCfg(ctx);
      if applied.Err? {
        return Err(applied.error);
      }
      return Ok(subnet);
    }

    method DeleteSubnet(subnet: Subnet) returns (r: Result<(), DriverError>)
      requires Valid()
      modifies this
      ensures Valid() && serviceUp == old(serviceUp)
      ensures serviceUp ==> r.Ok?
      ensures r.Ok? ==> Plane() == old(Plane()) - {subnet.uuid}
    {
      var ctx := LoadCtx();
      ghost var c := ctx.View();
      PlaneKeys(c);
      DeleteSubnetSound(c, subnet.uuid);
      DeleteSubnetOnPlane(c, subnet.uuid);
      if !exists s | s in ctx.subnets :: s.uuid == subnet.uuid {
        assert !c.Lists(subnet.uuid);
        return Ok(());
      }
      ctx.DeleteSubnet(subnet);
      r := ApplyCfg(ctx);
    }

    /** The loop of `create_ports`: an edit of the loaded context only. */
    static method FilePorts(ctx: DhcpContext, ports: seq<Port>) returns (r: Result<seq<Port>, DriverError>)
      requires Sound(ctx.View())
      modifies ctx
      ensures NewTo(PlaneOf(old(ctx.View())), ports) ==> r.Ok?
      ensures r.Ok? ==>
                && r.value == Activated(ports) && Sound(ctx.View())
                && PlaneOf(ctx.View()) == WithPorts(PlaneOf(old(ctx.View())), Activated(ports))
    {
      ghost var pl := PlaneOf(ctx.View());
      var newPorts := [];
      for i := 0 to |ports|
        invariant Sound(ctx.View())
        invariant newPorts == Activated(ports[..i])
        invariant PlaneOf(ctx.View()) == WithPorts(pl, Activated(ports[..i]))
      {
        var port := ports[i].(status := Active);
        FilesNext(ctx.View(), pl, ports, i);
        var added := ctx.AddPort(port);
        if added.Err? {
          return Err(added.error);
        }
        newPorts := newPorts + [port];
      }
      assert ports[..|ports|] == ports;
      return Ok(newPorts);
    }

    method CreatePorts(ports: seq<Port>) returns (r: Result<seq<Port>, DriverError>)
      requires Valid()
      modifies this
      ensures Valid() && serviceUp == old(serviceUp)
      ensures serviceUp && NewTo(old(Plane()), ports) ==> (r.Ok? <==> AllConfigured(ports))
      ensures r.Ok? ==> r.value == Activated(ports) && Plane() == WithPorts(old(Plane()), Activated(ports))
      ensures r.Err? && serviceUp ==> Plane() == old(Plane())
    {
      var ctx := LoadCtx();
      var filed := FilePorts(ctx, ports);
      if filed.Err? {
        return Err(filed.error);
      }
      if NewTo(Plane(), ports) {
        CreatedRenderable(ctx.View(), Stored(), ports);
      }
      var applied := ApplyCfg(ctx);
      if applied.Err? {
        return Err(applied.error);
      }
      return Ok(filed.value);
    }

    method DeletePorts(ports: seq<Port>) returns (r: Result<(), DriverError>)
      requires Valid()
      modifies this
      ensures Valid() && serviceUp == old(serviceUp)
      ensures serviceUp ==> r.Ok?
      ensures r.Ok? ==> Plane() == WithoutPorts(old(Plane()), ports)
    {
      var ctx := LoadCtx();
      ghost var pl := Plane();
      for i := 0 to |ports|
        invariant Valid() && Plane() == pl && serviceUp == old(serviceUp)
        invariant fresh(ctx) && WellFormed(ctx.View())
        invariant PlaneOf(ctx.View()) == WithoutPorts(pl, ports[..i])
      {
        assert ports[..i + 1][..i] == ports[..i];
        ghost var c := ctx.View();
        DeletePortSound(c, ports[i]);
        DeletePortOnPlane(c, ports[i]);
        ctx.DeletePort(ports[i]);
      }
      assert ports[..|ports|] == ports;
      r := ApplyCfg(ctx);
    }

    /** The port goes and comes back, in the loaded context only. */
    static method Refile(ctx: DhcpContext, port: Port, active: Port)
      requires WellFormed(ctx.View()) && active == port.(status := Active)
      modifies ctx
      ensures Sound(ctx.View()) && PlaneOf(ctx.View()) == WithPort(PlaneOf(old(ctx.View())), active)
      ensures active.subnet in PlaneOf(old(ctx.View())) ==> (Renderable(ctx.View()) <==> Configured(active))
    {
      ReplacePortOnPlane(ctx.View(), active);
      ctx.DeletePort(port);
      var _ := ctx.AddPort(active);
    }

    method UpdatePort(port: Port) returns (r: Result<Port, DriverError>)
      requires Valid()
      modifies this
      ensures Valid() && serviceUp == old(serviceUp)
      ensures serviceUp && port.subnet in old(Plane()) ==> (r.Ok? <==> Configured(port))
      ensures r.Ok? ==> r.value == port.(status := Active) && Plane() == WithPort(old(Plane()), port.(status := Active))
      ensures r.Err? && serviceUp ==> Plane() == old(Plane())
    {
      var ctx := LoadCtx();
      var active := port.(status := Active);
      Refile(ctx, port, active);
      var applied := ApplyCfg(ctx);
      if applied.Err? {
        return Err(applied.error);
      }
      return Ok(active);
    }

    /** Replacing the subnet drops all its ports. */
    method UpdateSubnet(subnet: Subnet) returns (r: Result<Subnet, DriverError>)
      requires Valid()
      modifies this
      ensures Valid() && serviceUp == old(serviceUp)
      ensures serviceUp ==> (r.Ok? <==> subnet.described)
      ensures r.Ok? ==> r.value == subnet && Plane() == old(Plane())[subnet.uuid := Site(subnet, map[])]
      ensures r.Err? && serviceUp ==> Plane() == old(Plane())
    {
      var ctx := LoadCtx();
      ReplaceSubnetOnPlane(ctx.View(), subnet);
      ctx.DeleteSubnet(subnet);
      var added := ctx.AddSubnet(subnet);
      var applied := ApplyCfg(ctx);
      if applied.Err? {
        return Err(applied.error);
      }
      return Ok(subnet);
    }
  }
}
