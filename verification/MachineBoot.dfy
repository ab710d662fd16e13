/**
 How the pool builder boots a machine: from the network to be flashed, then from its disk.
 The machine has two derivatives, what the pool runs and what the guest agent is told.
 */
module MachineBoot {
  import opened Common

  datatype Boot = Hd0 | Network | OtherBoot

  datatype Status = New | Scheduled | InProgress | Started | Active | Idle | Error | Flashed | NeedReschedule

  type Image = Option<string>

  datatype Port = Port(ipv4: Option<nat>, mask: Option<nat>, mac: nat, source: Option<string>)

  /** `Port.from_boot_network`: no address yet, a generated hardware address. */
  function BootNetworkPort(subnet: string, mac: nat): Port {
    Port(None, None, mac, Some(subnet))
  }

  /** The machine itself; `core` machines belong to the core set. */
  datatype Machine = Machine(uuid: Uuid, core: bool, boot: Boot, image: Image, status: Status)

  /** The machine as its pool is to run it, with the port it is attached to. */
  datatype PoolMachine = PoolMachine(uuid: Uuid, boot: Boot, image: Image, port: Port)

  /** The machine as its guest agent is to make it. */
  datatype GuestMachine = GuestMachine(uuid: Uuid, boot: Boot, image: Image)

  /** What pool and guest agent report. */
  datatype PoolReport = PoolReport(status: Status)

  datatype GuestReport = GuestReport(boot: Boot, image: Image, status: Status)

  datatype State = State(machine: Machine, pool: PoolMachine, guest: GuestMachine)

  /** What the builder handles. `own` is the node's port, `image` that of the root volume;
      `guest` is what the guest agent reports, if it does; in `Build` it is `None` when
      there is no guest machine yet. */
  datatype Event =
    | Build(own: Port, image: Image, guest: Option<Option<GuestReport>>, subnet: string, mac: nat)
    | Outdated(own: Port, poolReport: Option<PoolReport>, guestReport: Option<GuestReport>)

  // ---- Steps ----

  /** A new machine is flashed from the network, unless it is of the core set; so is one
      whose guest reports another image. */
  function BootFor(core: bool, image: Image, guest: Option<Option<GuestReport>>): Boot {
    match guest
    case None => if core then Hd0 else Network
    case Some(None) => Hd0
    case Some(Some(report)) => if report.image != image then Network else Hd0
  }

  function PoolMachineOf(m: Machine, port: Port): PoolMachine {
    PoolMachine(m.uuid, m.boot, m.image, port)
  }

  function Built(m: Machine, e: Event): State
    requires e.Build?
  {
    var boot := BootFor(m.core, e.image, e.guest);
    var next := m.(boot := boot, image := e.image);
    State(next, PoolMachineOf(next, if boot == Network then BootNetworkPort(e.subnet, e.mac) else e.own),
          GuestMachine(m.uuid, boot, e.image))
  }

  predicate IsFlashed(report: Option<GuestReport>) {
    report.Some? && report.value.boot == Network && report.value.status == Flashed
  }

  function StatusAfter(status: Status, pool: Option<PoolReport>, guest: Option<GuestReport>): Status {
    if pool.None? || guest.None? then status
    else if pool.value.status == Error || guest.value.status == Error then Error
    else if pool.value.status == New || guest.value.status == New then New
    else if pool.value.status == Active && guest.value.status == Active then Active
    else InProgress
  }

  function OutdatedStep(s: State, e: Event): State
    requires e.Outdated?
  {
    var status := StatusAfter(s.machine.status, e.poolReport, e.guestReport);
    if IsFlashed(e.guestReport) then
      var m := s.machine.(boot := Hd0);
      State(m.(status := status), PoolMachineOf(m, e.own), s.guest.(boot := Hd0))
    else s.(machine := s.machine.(status := status))
  }

  function Step(s: State, e: Event): State {
    if e.Build? then Built(s.machine, e) else OutdatedStep(s, e)
  }

  /** A run begins with the first build of the machine. */
  function Run(m: Machine, first: Event, events: seq<Event>): State
    requires first.Build?
  {
    if events == [] then Built(m, first)
    else Step(Run(m, first, events[..|events| - 1]), events[|events| - 1])
  }

  // ---- What every step keeps ----

  /** Machine, pool and guest agree on how and what to boot. */
  ghost predicate Agree(s: State) {
    && s.machine.uuid == s.pool.uuid == s.guest.uuid
    && s.machine.boot == s.pool.boot == s.guest.boot
    && s.machine.image == s.pool.image == s.guest.image
  }

  /** Network boot is on a port of a build's boot network, without an address and with the
      drawn hardware address; disk boot is on one of the node's own ports. */
  ghost predicate PortFits(s: State, events: seq<Event>) {
    || (s.machine.boot == Network && exists e | e in events :: e.Build? && s.pool.port == Port(None, None, e.mac, Some(e.subnet)))
    || (s.machine.boot == Hd0 && exists e | e in events :: s.pool.port == e.own)
  }

  lemma {:induction false} RunAgrees(m: Machine, first: Event, events: seq<Event>)
    requires first.Build?
    ensures Agree(Run(m, first, events))
    ensures Run(m, first, events).machine.uuid == m.uuid && Run(m, first, events).machine.core == m.core
  {
    if events != [] {
      RunAgrees(m, first, events[..|events| - 1]);
    }
  }

  lemma {:induction false} RunPortFits(m: Machine, first: Event, events: seq<Event>)
    requires first.Build?
    ensures PortFits(Run(m, first, events), [first] + events)
  {
    var all := [first] + events;
    if events == [] {
      assert first in all;
      BuiltPortFits(m, first, all);
    } else {
      var k := |events| - 1;
      var before, e := Run(m, first, events[..k]), events[k];
      RunPortFits(m, first, events[..k]);
      assert forall x | x in [first] + events[..k] :: x in all;
      assert e in all;
      if e.Build? {
        BuiltPortFits(before.machine, e, all);
      }
    }
  }

  lemma BuiltPortFits(m: Machine, e: Event, events: seq<Event>)
    requires e.Build? && e in events
    ensures PortFits(Built(m, e), events)
  {
    if BootFor(m.core, e.image, e.guest) == Network {
      assert Built(m, e).pool.port == Port(None, None, e.mac, Some(e.subnet));
    }
  }

  /** On every run, when the node's ports have addresses: the machine boots from the network
      exactly while the port given to the pool has none. */
  lemma {:induction false} NetworkIffNoAddress(m: Machine, first: Event, events: seq<Event>)
    requires first.Build? && forall e | e in [first] + events :: e.own.ipv4.Some?
    ensures var s := Run(m, first, events);
            s.machine.boot == Network <==> s.pool.port.ipv4.None?
  {
    RunPortFits(m, first, events);
  }

  // ---- What decides the boot mode ----

  /** The boot mode an event sets, if it sets one. */
  function Decision(core: bool, e: Event): Option<Boot> {
    if e.Build? then Some(BootFor(core, e.image, e.guest))
    else if IsFlashed(e.guestReport) then Some(Hd0)
    else None
  }

  /** The boot mode is what the last deciding event set: nothing but a build and a report
      of a flashed network boot ever changes it. */
  lemma {:induction false} LastDecisionCounts(m: Machine, first: Event, events: seq<Event>, k: nat)
    requires first.Build? && k < |events| && Decision(m.core, events[k]).Some?
    requires forall j | k < j < |events| :: Decision(m.core, events[j]).None?
    ensures Run(m, first, events).machine.boot == Decision(m.core, events[k]).value
    decreases |events|
  {
    var n := |events| - 1;
    RunAgrees(m, first, events[..n]);
    if k < n {
      LastDecisionCounts(m, first, events[..n], k);
      assert Decision(m.core, events[n]).None?;
    }
  }

  /** The build asks for a flashing: the machine is new and not of the core set, or its guest
      reports another image than the root volume has. */
  ghost predicate Flashes(core: bool, build: Event)
    requires build.Build?
  {
    || (build.guest.None? && !core)
    || (build.guest.Some? && build.guest.value.Some? && build.guest.value.value.image != build.image)
  }

  /** A guest reported that it was booted from the network and is flashed. */
  ghost predicate FlashedReported(reports: seq<Event>) {
    exists e | e in reports ::
      e.Outdated? && e.guestReport.Some? && e.guestReport.value.boot == Network && e.guestReport.value.status == Flashed
  }

  /** Whatever went before, after a build and any reports the machine has the image of the
      build, and boots from the network if and only if the build asked for a flashing and no
      flashed network boot was reported since; from its disk otherwise. */
  lemma {:induction false} BootAfterBuild(m: Machine, first: Event, events: seq<Event>, build: Event, reports: seq<Event>)
    requires first.Build? && build.Build? && forall e | e in reports :: e.Outdated?
    ensures var s := Run(m, first, events + [build] + reports);
            && s.machine.image == build.image
            && s.machine.boot == if Flashes(m.core, build) && !FlashedReported(reports) then Network else Hd0
  {
    var all := events + [build] + reports;
    if reports == [] {
      RunAgrees(m, first, events);
      assert all == events + [build] && all[..|all| - 1] == events;
    } else {
      var k := |reports| - 1;
      BootAfterBuild(m, first, events, build, reports[..k]);
      assert reports[k] in reports;
      var prior := events + [build] + reports[..k];
      assert all[..|all| - 1] == prior && all[|all| - 1] == reports[k];
      assert reports == reports[..k] + [reports[k]];
      assert Run(m, first, all) == OutdatedStep(Run(m, first, prior), reports[k]);
    }
  }

  /** The same for the first build: a new machine of the core set starts from its disk, any
      other new one from the network. */
  lemma {:induction false} FirstBuildDecides(m: Machine, first: Event, reports: seq<Event>)
    requires first.Build? && forall e | e in reports :: e.Outdated?
    ensures var s := Run(m, first, reports);
            && s.machine.image == first.image
            && s.machine.boot == if Flashes(m.core, first) && !FlashedReported(reports) then Network else Hd0
  {
    if reports != [] {
      var k := |reports| - 1;
      FirstBuildDecides(m, first, reports[..k]);
      assert reports[k] in reports;
      assert reports == reports[..k] + [reports[k]];
      assert Run(m, first, reports) == OutdatedStep(Run(m, first, reports[..k]), reports[k]);
    }
  }

  /** Both agents report, so the status is taken from them. */
  ghost predicate Reports(e: Event) {
    e.Outdated? && e.poolReport.Some? && e.guestReport.Some?
  }

  /** The status is what the last report of both agents makes of it, whatever is built before
      or after: an error of either wins, then one that is still new; active are both or
      none; without such a report it is the machine's own. */
  lemma {:induction false} LastReportsCount(m: Machine, first: Event, events: seq<Event>, k: nat)
    requires first.Build? && k < |events| && Reports(events[k])
    requires forall j | k < j < |events| :: !Reports(events[j])
    ensures var p, g := events[k].poolReport.value.status, events[k].guestReport.value.status;
            var status := Run(m, first, events).machine.status;
            && (status == Error <==> p == Error || g == Error)
            && (status == New <==> p != Error && g != Error && (p == New || g == New))
            && (status == Active <==> p == Active && g == Active)
            && (status == Error || status == New || status == Active || status == InProgress)
    decreases |events|
  {
    var n := |events| - 1;
    if k < n {
      LastReportsCount(m, first, events[..n], k);
      assert !Reports(events[n]);
    }
  }

  lemma {:induction false} UnreportedKeepsStatus(m: Machine, first: Event, events: seq<Event>)
    requires first.Build? && forall e | e in events :: !Reports(e)
    ensures Run(m, first, events).machine.status == m.status
  {
    if events != [] {
      UnreportedKeepsStatus(m, first, events[..|events| - 1]);
      assert !Reports(events[|events| - 1]);
    }
  }

  /** A machine whose guest reports another image than its root volume's is flashed: it
      boots from the network until, and only until, a flashed network boot is reported. */
  lemma {:induction false} ReflashedOnce(m: Machine, first: Event, events: seq<Event>, build: Event, reports: seq<Event>)
    requires first.Build? && build.Build? && build.guest.Some? && build.guest.value.Some?
    requires build.guest.value.value.image != build.image
    requires forall e | e in reports :: e.Outdated?
    ensures var s := Run(m, first, events + [build] + reports);
            && s.machine.image == build.image
            && s.machine.boot == if exists e | e in reports :: IsFlashed(e.guestReport) then Hd0 else Network
  {
    var all := events + [build] + reports;
    if reports == [] {
      assert all == events + [build] && all[..|all| - 1] == events;
    } else {
      var k := |reports| - 1;
      ReflashedOnce(m, first, events, build, reports[..k]);
      var prior := events + [build] + reports[..k];
      assert all[..|all| - 1] == prior && all[|all| - 1] == reports[k];
      assert Run(m, first, all) == OutdatedStep(Run(m, first, prior), reports[k]);
      assert reports == reports[..k] + [reports[k]];
    }
  }

  /** After any run, handling the same reports over and over is handling them once. */
  lemma {:induction false} RepeatedReportsChangeNothing(m: Machine, first: Event, events: seq<Event>, e: Event, again: seq<Event>)
    requires first.Build? && e.Outdated? && forall x | x in again :: x == e
    ensures Run(m, first, events + [e] + again) == Run(m, first, events + [e])
  {
    var once, all := events + [e], events + [e] + again;
    if again == [] {
      assert all == once;
    } else {
      var k := |again| - 1;
      assert forall x | x in again[..k] :: x in again;
      RepeatedReportsChangeNothing(m, first, events, e, again[..k]);
      assert all[..|all| - 1] == once + again[..k] && all[|all| - 1] == again[k];
      assert once[..|once| - 1] == events && again[k] in again;
    }
  }

  /** A build before the guest has reported selects the disk, flashed or not. */
  lemma EarlyUpdateBootsFromDisk(m: Machine, first: Event, update: Event)
    requires first.Build? && first.guest.None? && !m.core && update.Build? && update.guest == Some(None)
    ensures Run(m, first, []).machine.boot == Network && Run(m, first, [update]).machine.boot == Hd0
  {
    assert [update][..0] == [];
  }

  // ---- The builder ----

  datatype Volume = Volume(index: nat, image: Image)

  datatype Failure = DepsMissing

  class MachineRecord {
    const uuid: Uuid
    const core: bool
    var boot: Boot
    var image: Image
    var status: Status

    constructor (uuid: Uuid, core: bool)
      ensures Value() == Machine(uuid, core, Network, None, New)
    {
      this.uuid, this.core := uuid, core;
      boot, image, status := Network, None, New;
    }

    ghost function Value(): Machine
      reads this
    {
      Machine(uuid, core, boot, image, status)
    }

    /** The first port, and the volume of lowest index. */
    method FetchDeps(ports: seq<Port>, volumes: seq<Volume>) returns (r: Result<(Port, Volume), Failure>)
      ensures r.Ok? <==> ports != [] && volumes != []
      ensures r.Ok? ==> r.value.0 == ports[0] && r.value.1 in volumes && forall v | v in volumes :: r.value.1.index <= v.index
    {
      if ports == [] || volumes == [] {
        return Err(DepsMissing);
      }
      var root := volumes[0];
      for i := 1 to |volumes|
        invariant root in volumes && forall v | v in volumes[..i] :: root.index <= v.index
      {
        if volumes[i].index < root.index {
          root := volumes[i];
        }
      }
      assert volumes[..|volumes|] == volumes;
      r := Ok((ports[0], root));
    }

    /** `_actualize_machine_derivatives_on_create_update`. */
    method Actualize(own: Port, root: Volume, guest: Option<Option<GuestReport>>, subnet: string, mac: nat)
      returns (pool: PoolMachine, target: GuestMachine)
      modifies this
      ensures State(Value(), pool, target) == Built(old(Value()), Build(own, root.image, guest, subnet, mac))
    {
      var port := own;
      var mode := Hd0;
      if guest.None? {
        if !core {
          mode := Network;
          port := BootNetworkPort(subnet, mac);
        }
      } else if guest.value.Some? && guest.value.value.image != root.image {
        mode := Network;
        port := BootNetworkPort(subnet, mac);
      }
      boot := mode;
      image := root.image;
      pool := PoolMachine(uuid, boot, image, port);
      target := GuestMachine(uuid, mode, root.image);
    }

    /** `_actualize_machine_derivatives_on_outdate`. */
    method ActualizeOutdated(own: Port, pool: PoolMachine, target: GuestMachine,
                             poolReport: Option<PoolReport>, guestReport: Option<GuestReport>)
      returns (nextPool: PoolMachine, nextTarget: GuestMachine)
      modifies this
      ensures State(Value(), nextPool, nextTarget) ==
              OutdatedStep(State(old(Value()), pool, target), Outdated(own, poolReport, guestReport))
    {
      nextPool, nextTarget := pool, target;
      if guestReport.Some? && guestReport.value.boot == Network && guestReport.value.status == Flashed {
        boot := Hd0;
        nextTarget := target.(boot := Hd0);
        nextPool := PoolMachine(uuid, boot, image, own);
      }
      ActualizeStatus(poolReport, guestReport);
    }

    method ActualizeStatus(poolReport: Option<PoolReport>, guestReport: Option<GuestReport>)
      modifies this`status
      ensures status == StatusAfter(old(status), poolReport, guestReport)
    {
      if poolReport.None? || guestReport.None? {
        return;
      }
      var p, g := poolReport.value.status, guestReport.value.status;
      if p == Error || g == Error {
        status := Error;
      } else if p == New || g == New {
        status := New;
      } else if p == Active && g == Active {
        status := Active;
      } else {
        status := InProgress;
      }
    }
  }
}
