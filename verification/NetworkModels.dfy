/** Subnets and ports, as the network service, the IPAM and the driver see them. */
module NetworkModels {
  import opened Common
  import opened AddressPool

  datatype PortStatus = New | InProgress | Active | Error

  /** `cidr` is given by its first and last address; two networks are equal when these are.
      `described`: neither the list of name servers nor that of routers is absent. */
  datatype Subnet = Subnet(
    uuid: Uuid,
    cidr: AddressRange,
    ipRange: Option<AddressRange>,
    discovery: Option<AddressRange>,
    nextServer: Option<string>,
    described: bool)

  datatype Port = Port(
    uuid: Uuid,
    subnet: Uuid,
    ipv4: Option<int>,
    mask: Option<int>,
    mac: Option<string>,
    status: PortStatus)

  /** The addresses an allocation may come from: the explicit range, else the whole network. */
  function Span(s: Subnet): AddressRange {
    if s.ipRange.Some? then s.ipRange.value else s.cidr
  }

  predicate Overlap(a: Range, b: Range) {
    a.lo <= b.hi && b.lo <= a.hi
  }

  predicate RangesConflict(s: Subnet) {
    s.discovery.Some? && s.ipRange.Some? && Overlap(s.discovery.value, s.ipRange.value)
  }

  predicate InDiscovery(s: Subnet, a: int) {
    s.discovery.Some? && Contains(s.discovery.value, a)
  }

  /** The addresses the ports hold. */
  function PortAddresses(ports: seq<Port>): seq<int> {
    if ports == [] then []
    else (if ports[0].ipv4.Some? then [ports[0].ipv4.value] else []) + PortAddresses(ports[1..])
  }
}
