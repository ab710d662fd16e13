# Verified model of Exordos Core's control loops

Exordos Core keeps a cloud in the state its database asks for. This project models, in Dafny,
the loops that do it, and proves what they keep and when they reach their goal.

| module | what it models |
| --- | --- |
| `AddressPool`, `Ipam`, `PoolRuns` | the IP address manager: lists of free intervals changed in place, and whole histories of requests |
| `PortAllocation`, `PlannedPorts` | the first half of a network iteration: addresses for new nodes and hardware ports |
| `FlatDriver`, `Reconciler`, `NetworkService` | the DHCP driver with its stored context, and the second half of a network iteration |
| `DnsSync`, `DnsSyncService` | DNS records pushed to the ecosystem: the full diff, the fast path, the choice between them |
| `Selection`, `PoolPlacement`, `Scheduler`, `MachineScheduling` | the compute scheduler: filters and weights, reuse of spare volumes, resource accounting |
| `Links`, `Elements`, `ElementEngine`, `Manifests`, `ManifestImports`, `ManifestResources`, `ManifestExports`, `ExportIndex`, `Installation`, `StoredResources`, `ManifestRuns`, `ManifestService` | installing and upgrading element manifests, and the in-memory index of installed elements |
| `Documents`, `Rendering`, `LinkForms`, `TargetStates`, `Templates` | rendering resource values whose strings refer to other resources, and what such a value stands for |
| `NodeSets`, `MachineBoot`, `VolumeBuilder` | builders: node sets, the network-boot and flashing protocol, storage admission |
| `Rfc3442` | the classless static route option against RFC 3442, section "Classless Route Option Format" |
| `Common`, `Keyed`, `NetworkModels`, `TableSync` | shared values and lemmas |

Code that works by changing things is a class with loops; each method equals a function of the old state
(`AllocatePorts` and `NodeSteps`, `ActualizeNetwork` and `Reconciled`, `FullSyncDomain` and `FullZone`,
`ScheduleOnPools` and `AfterNodes`, `Install` and `Installed`), and the theorems are about these functions.

Stores (the database, the DHCP context, remote DNS zones) are maps by identifier. A call outside the model,
such as an insert or a service restart, has its outcome as a parameter. Filters and weighters of the scheduler are
functions: a filter returns some of its candidates, a weighter one number for each. Iteration over Python sets and over
query results without an order is an arbitrary choice, so what is proved holds for every order.

Where the code does not do what one would expect, the project says exactly when it does:

- A deallocated address that ends a free interval is added twice (`FreedMeaning`, `DoubleReleaseHandsOutTwice`), and a
  named address is handed out although it has a holder (`NamedAddressHandsOutTwice`); these are the two ways to lose
  count (`RunConservesIff`).
- An address inside the discovery range is skipped when the pool is built, so with a discovery range and no
  explicit range it is handed out again (`InitialPoolMeaning`, `DiscoveryWithoutRangeHidesPort`).
- When an allocation fails, the handler frees the address of an earlier node's port; an exhausted subnet thus hands an
  address out twice (`StepKeepsInvIffSafe`, `ExhaustionDuplicatesAddress`).
- When an insert fails, its port stays planned while its address goes to the next node: planned addresses are distinct
  if and only if every insert but the last succeeds (`PlannedDistinctIff`, `IterationPlansDistinctIff`).
- Two runs bring the port and subnet identifiers of both sides together if and only if the subnets to be created or
  updated have name servers and routers and the ports to be created are configured (`ConvergesIff`); differing port addresses are exchanged between database and data plane for ever
  (`AddressesNeverMeet`), since the value listed before the update is written back.
- A comment says the first DNS cycle is a full one at once. The initial value is 61 and the interval 60, so the
  first full cycle runs when the monotonic clock has reached 121 (`FirstCycleIsFullIff`).
- The fast path equals the full one if and only if no remote record lost its local counterpart (`FastRefinesFullIff`,
  `FastCyclesOverRuns`).
- Upgrading to a manifest that drops a resource deletes the imports that came from it, while their links stay in the
  index until the next reload (`LinksFollowIff`, `EmptyUpgradeStrandsImporters`). A stored import that changes its source
  keeps its old entry, and an export that changes its link its old index entry: `AppliedAgreesIff` says exactly when the
  index follows an upgrade.
- An import named like its own element cannot be used in a prefix: the link is cut at the element (`ImportPrefixParts`).
- An active node set stays active when reports about its nodes disappear (`ActiveIff`).
- A route whose last significant octet is zero, such as 10.0.0.0/16, is written one octet short (`ReadsBackIff`).

## Model

| member | source | states |
| --- | --- | --- |
| AddressPool.OccupiedMeaning | exordos_core/network/ipam.py:109-138 | occupying removes exactly the named address from the free set and keeps the list sorted, non-empty and never adjacent, free or not |
| AddressPool.FreedMeaning | exordos_core/network/ipam.py:167-200 | deallocating adds exactly the named address; the list stays in normal form if and only if the address does not end an interval it already has |
| AddressPool.NormalFormUnique | exordos_core/network/ipam.py:81-107 | two lists in normal form with the same free set are the same list |
| AddressPool.FreeUndoesOccupy | exordos_core/network/ipam.py:109-200 | occupying a free address and freeing it restores the identical list, split included |
| AddressPool.OccupyUndoesFree | exordos_core/network/ipam.py:109-200 | freeing a taken address and occupying it restores the identical list, merge included |
| AddressPool.FirstIsLeast | exordos_core/network/ipam.py:158-165 | untargeted allocation hands out the least free address and removes just that one |
| AddressPool.EmptyMeansNoneFree | exordos_core/network/ipam.py:150-151 | the list is empty exactly when no address is free |
| AddressPool.OccupiedAllMeaning | exordos_core/network/ipam.py:97-107 | occupying a sequence of addresses removes exactly these |
| AddressPool.OccupiedAllOrderIrrelevant | exordos_core/network/ipam.py:97-107 | the list does not depend on order or duplication of the occupied addresses |
| Ipam.InitialPoolMeaning | exordos_core/network/ipam.py:81-107 | the computed pool is in normal form and offers exactly the addresses of the explicit range, else of the network, but for those of ports outside the discovery range; all port addresses are left out if and only if none is hidden by the discovery range |
| Ipam.RangesConflictIff | exordos_core/network/ipam.py:88-95 | the overlap test holds if and only if explicit range and discovery range share an address |
| Ipam.ExplicitRangeHidesNothing | exordos_core/network/ipam.py:84-103 | with an explicit range that passes the overlap check, or no discovery range, no port is hidden |
| Ipam.DiscoveryWithoutRangeHidesPort | exordos_core/network/ipam.py:84-103 | a subnet that passes the check and offers the address of a stored port again |
| Ipam.InitialPoolOrderIrrelevant | exordos_core/network/ipam.py:97-107 | the pool is the same list for any order or duplication of the ports |
| Ipam.Ipam.AddSubnets | exordos_core/network/ipam.py:51-79 | building the manager fails exactly when some subnet's ranges overlap, else every subnet has its computed pool |
| Ipam.Ipam.CalculatePool | exordos_core/network/ipam.py:81-107 | the loop over ports computes the specified pool, or refuses overlapping ranges |
| Ipam.Ipam.OccupyIp | exordos_core/network/ipam.py:109-138 | the in-place loop with pop, assignment and insert does what the specification says to the shared list |
| Ipam.Ipam.AllocateIp | exordos_core/network/ipam.py:140-165 | result and all pools after an allocation, including unknown subnet, empty pool and named address |
| Ipam.Ipam.DeallocateIp | exordos_core/network/ipam.py:167-200 | result and all pools after a deallocation |
| PoolRuns.RequestIsApplied | exordos_core/network/ipam.py:140-200 | a request of a history is a request to the manager: same list afterwards, other subnets untouched, the answered address live |
| PoolRuns.StepConservesIff | exordos_core/network/ipam.py:140-200 | counting holders, one request leaves every address of the range either free or with one holder if and only if it is admissible: a named address was free, a returned one did not end a free interval |
| PoolRuns.LiveReleaseIsAdmissible | exordos_core/network/ipam.py:167-200 | giving back an address that has its one holder is always admissible |
| PoolRuns.RunConservesIff | exordos_core/network/ipam.py:140-200 | over any sequence of requests every address stays free or with one holder at every point if and only if every request was admissible when made |
| PoolRuns.DoubleReleaseHandsOutTwice | exordos_core/network/ipam.py:179-200 | an address given back twice is offered again while it is live |
| PoolRuns.NamedAddressHandsOutTwice | exordos_core/network/ipam.py:153-156 | a held address asked for by name gets a second holder, and after one of them returns it the next allocation hands it out again |
| PortAllocation.FirstMatch | exordos_core/network/service.py:247-267 | a node's subnet is the first one without a boot server |
| PortAllocation.AllocatePorts | exordos_core/network/service.py:293-329 | the two allocation loops, error handlers included, leave the pools, the planned and the inserted ports the specification gives |
| PortAllocation.StepKeepsInvIffSafe | exordos_core/network/service.py:254-317 | one allocation, inserted or not, keeps every address single if and only if the pool was not exhausted and a requested address was not held |
| PortAllocation.SafeRunKeepsInv | exordos_core/network/service.py:303-317 | over any number of new nodes safe requests keep all addresses single, failed inserts included |
| PortAllocation.HwStepsKeepInv | exordos_core/network/service.py:319-329 | hardware ports never break it |
| PortAllocation.IterationGivesNoDuplicates | exordos_core/network/service.py:293-329 | over a whole iteration no inserted port shares an address with another inserted or stored port of its subnet |
| PortAllocation.SafeIffEnoughFree | exordos_core/network/service.py:303-317 | without requested addresses and failures the run is safe if and only if there are as many free addresses as nodes |
| PortAllocation.ExhaustionDuplicatesAddress | exordos_core/network/service.py:309-317 | three nodes and one free address: the address is given to the first and to the third node |
| PortAllocation.FailedInsertPlansAddressTwice | exordos_core/network/service.py:289-317 | a failed insert leaves its port in the subnet map while its address goes to the next node |
| PlannedPorts.StrandedNodeRepeats | exordos_core/network/service.py:254-317 | once a failed insert has put back the address it planned, the next node that asks for none plans the same address, whatever follows |
| PlannedPorts.PlannedDistinctIff | exordos_core/network/service.py:254-317 | over any safe run of nodes that ask for no address, the planned addresses are distinct and not stored if and only if every insert but the last node's succeeds |
| PlannedPorts.IterationPlansDistinctIff | exordos_core/network/service.py:254-329 | over a whole iteration, hardware ports included, planned addresses repeat if and only if an insert before the last node's fails, or the last node's fails and a hardware port is inserted after it in its subnet |
| PlannedPorts.PlannedDistinctIffReturnedOnce | exordos_core/network/service.py:254-329 | with requested addresses too, planned addresses are distinct if and only if no address put back by a failed insert is given again |
| FlatDriver.DhcpContext.DeleteSubnet | exordos_core/network/driver/flat.py:132-137 | the in-place removal of a subnet and its ports |
| FlatDriver.ReplaceSubnetOnPlane | exordos_core/network/driver/flat.py:381-397 | deleting and adding a subnet keeps the context sound and wipes exactly this subnet's ports |
| FlatDriver.ReplacePortOnPlane | exordos_core/network/driver/flat.py:358-379 | deleting and adding a port replaces exactly it, and can be rendered exactly when it is configured |
| FlatDriver.FlatBridgeDriver.CreateSubnet | exordos_core/network/driver/flat.py:218-235 | load, edit, render, save: succeeds exactly on a new subnet with name servers and routers, which then is on the data plane without ports |
| FlatDriver.FlatBridgeDriver.DeleteSubnet | exordos_core/network/driver/flat.py:292-314 | the subnet and its ports leave the data plane |
| FlatDriver.FlatBridgeDriver.CreatePorts | exordos_core/network/driver/flat.py:262-290 | a batch of new ports is created as a whole, active, exactly when all are configured, else nothing changes |
| FlatDriver.FlatBridgeDriver.DeletePorts | exordos_core/network/driver/flat.py:340-356 | exactly the named ports leave the data plane |
| FlatDriver.FlatBridgeDriver.UpdatePort | exordos_core/network/driver/flat.py:358-379 | exactly the named port is replaced, when configured |
| FlatDriver.FlatBridgeDriver.UpdateSubnet | exordos_core/network/driver/flat.py:381-397 | a subnet with name servers and routers is replaced and its ports are wiped, another one is refused without a change |
| FlatDriver.FlatBridgeDriver.ApplyCfg | exordos_core/network/driver/flat.py:175-206 | a context that cannot be rendered changes nothing; a failed restart keeps the old context file, which may from then on count as empty |
| NetworkService.NetworkService.ActualizeSubnet | exordos_core/network/service.py:148-245 | the stale port snapshot, the wipe and the write-back together: data plane and rows of one subnet afterwards |
| NetworkService.NetworkService.ActualizeNetwork | exordos_core/network/service.py:107-146 | the three loops of a run change both sides of a network as specified, in any order of iteration |
| Reconciler.SettledInOneRunIff | exordos_core/network/service.py:148-245 | a subnet known to both sides is settled by one run if and only if the change of the subnet and the missing ports are accepted and no port stays wiped |
| Reconciler.ConvergesIff | exordos_core/network/service.py:107-245 | from any stored data plane, after two or more runs both sides have the same subnets and ports if and only if the subnets to be created or updated have name servers and routers and the ports to be created are configured |
| Reconciler.AgreesAfterOneRunIff | exordos_core/network/service.py:107-245 | a single run makes the sides agree if and only if every common subnet settles in one run and every new one can be created and has no ports |
| Reconciler.AddressesMeetIff | exordos_core/network/service.py:209-240 | a port address that differs is exchanged between the sides; they have the same one afterwards if and only if they had before or the port lacks an address or a hardware address |
| Reconciler.AddressesNeverMeet | exordos_core/network/service.py:209-240 | once exchanged, the addresses differ after every number of runs |
| Reconciler.SubnetRowsMeetIff | exordos_core/network/service.py:158-168 | after any number of runs a subnet known to both sides has equal rows if and only if it had before, or its network or boot server differed and it has name servers and routers |
| Reconciler.RowAfterRun | exordos_core/network/service.py:170-240 | what a run writes to a port's row: status, address and mask of the port on the data plane, or the status of the created one |
| Reconciler.StatusFollows | exordos_core/network/service.py:209-240 | with the same address on both sides a port's row has the data plane's status after one run and any number more |
| DnsSync.FullSettlesIff | exordos_core/dns_sync/service.py:287-377 | a full synchronisation from any remote state makes the remote records equal the local ones if and only if no identifier clashes with a remote SOA record |
| DnsSync.FullMirrorsIff | exordos_core/dns_sync/service.py:287-377 | after a full cycle the zone has, SOA records apart, exactly the local records of the domain with their data, if and only if none of them has the identifier of a remote SOA record |
| DnsSync.FullRequestsAre | exordos_core/dns_sync/service.py:287-377 | exactly which creations, updates and deletions a full cycle sends, on the records themselves; none concerns an SOA record |
| DnsSync.FastRequestsAre | exordos_core/dns_sync/service.py:202-281 | exactly which creations and updates a fast cycle sends; none concerns an SOA record |
| DnsSync.RunLeavesOthers | exordos_core/dns_sync/service.py:202-377 | over every history SOA records, records without identifier and fields not compared stay |
| DnsSync.QuietIffInSync | exordos_core/dns_sync/service.py:287-377 | no request is sent if and only if the domain is in sync |
| DnsSync.FullIsIdempotent | exordos_core/dns_sync/service.py:287-377 | without a clash with a remote SOA record, an immediate second run sends nothing and changes nothing |
| DnsSync.FullEstablishesTracks | exordos_core/dns_sync/service.py:407-434 | a full cycle from any remote state without SOA clash makes the time stamps tell exactly what the remote side has |
| DnsSync.FastRefinesFullIff | exordos_core/dns_sync/service.py:202-281 | where the time stamps tell what the remote side has, the fast path leaves the same remote records as the full diff if and only if nothing was removed |
| DnsSync.WritesArrive | exordos_core/dns_sync/service.py:202-377 | what is written to a record is on the remote side after the next cycle, fast or full |
| DnsSync.FastCyclesOverRuns | exordos_core/dns_sync/service.py:202-281 | over every history of writes and cycles that begins with a full cycle, a fast cycle never posts an existing record nor updates a missing one, and equals the full one if and only if nothing was removed |
| DnsSyncService.DnsSyncService.FullSyncDomain | exordos_core/dns_sync/service.py:287-377 | the three loops send exactly the requests of the diff, each once, and leave the zone it gives |
| DnsSyncService.DnsSyncService.FastSync | exordos_core/dns_sync/service.py:202-281 | grouping the recent records by domain and sending them leaves every flagged zone as specified |
| DnsSyncService.DnsSyncService.SyncAllDomains | exordos_core/dns_sync/service.py:407-449 | which cycle runs, what it leaves and how both time stamps move |
| DnsSyncService.FirstCycleIsFullIff | exordos_core/dns_sync/service.py:383-449 | over any attempts from the start, nothing is sent until the monotonic clock has reached 121 with a domain to synchronise, and that first cycle is a full one; at 120 nothing happens |
| DnsSyncService.LaterCyclesAre | exordos_core/dns_sync/service.py:407-449 | after a full cycle the next one runs 60 seconds later with a domain to synchronise, and before that every attempt is a fast cycle since the last cycle of either kind |
| Selection.ChosenIsBest | exordos_core/compute/scheduler/service.py:280-313 | the choice passes every filter and has the first maximal summed weight; there is none exactly when nothing passes |
| Selection.Choose | exordos_core/compute/scheduler/service.py:416-450 | the loops over filters, weighters and candidates compute that choice |
| Selection.WeightIsSum | exordos_core/compute/scheduler/service.py:442-450 | a candidate's weight is the sum of what every weighter gives it |
| PoolPlacement.ReusedIffGrowable | exordos_core/compute/scheduler/service.py:208-263 | a spare volume is reused if and only if the volume has an image and the largest spare with the same image, not above the request, can grow to it within usable size times ratio; it is then such a spare |
| PoolPlacement.BindingsFit | exordos_core/compute/scheduler/service.py:208-263 | over any placements every volume gets a new pool volume or a spare of the pool with its own image that is not larger |
| PoolPlacement.PlacementsConserve | exordos_core/compute/scheduler/service.py:208-263 | over any placements into a pool the provisioned size grows by requested minus reused sizes, and every spare is left or taken |
| PoolPlacement.TakenOnce | exordos_core/compute/scheduler/service.py:208-263 | no spare volume is bound twice, and a bound one is spare no more |
| Scheduler.NodesConserve | exordos_core/compute/scheduler/service.py:265-313 | each pool loses exactly the cores and memory of the nodes placed there and went through exactly their volumes |
| Scheduler.NodeGoesToBestPool | exordos_core/compute/scheduler/service.py:407-464 | a node goes to a passing pool of first maximal summed weight, or nowhere when none passes or its storage is missing |
| Scheduler.NeverOverused | exordos_core/compute/scheduler/driver/filters/available.py:21-36 | with the availability filter in the chain cores and memory never become negative |
| Scheduler.CoresRamAvailableKeeps | exordos_core/compute/scheduler/driver/filters/available.py:21-36 | a pool passes if and only if it has at least the node's cores and memory left |
| Scheduler.RequestsArePlacements | exordos_core/compute/scheduler/service.py:504-562 | volume scheduling puts each volume through the pool of its node's machine |
| Scheduler.RequestsReach | exordos_core/compute/scheduler/service.py:504-562 | each pool gets the volumes of the nodes with a machine there, in order, up to the first volume whose pool has no storage |
| Scheduler.IterationConserves | exordos_core/compute/scheduler/service.py:407-562 | over node placement and volume scheduling together storage grows by exactly requested minus reused and no spare volume is bound twice |
| Scheduler.PoolBundle.PlaceVolume | exordos_core/compute/scheduler/service.py:182-263 | the in-place search, removal and allocation bind the specified volume |
| Scheduler.PoolBundle.PlaceNode | exordos_core/compute/scheduler/service.py:265-313 | a node's volumes are placed and its cores and memory subtracted, or nothing happens |
| Scheduler.ScheduleOnPools | exordos_core/compute/scheduler/service.py:407-464 | the loop over nodes on shared pool objects |
| Scheduler.ScheduleVolumes | exordos_core/compute/scheduler/service.py:504-562 | the loop over unscheduled volumes on shared pool objects |
| MachineScheduling.OutcomeIsBest | exordos_core/compute/scheduler/service.py:337-405 | a node is bound to the first best passing machine of its type, or unbound exactly when none passes |
| MachineScheduling.NodesArePartitioned | exordos_core/compute/scheduler/service.py:315-405 | every node is bound to one idle machine of its own type, or left for the pools (VM), or in error (HW); no machine is bound twice; the rest stays idle |
| MachineScheduling.LeftAreToPool | exordos_core/compute/scheduler/service.py:315-405 | exactly the nodes with that outcome are returned for pool placement |
| MachineScheduling.ScheduleOnExistingMachines | exordos_core/compute/scheduler/service.py:315-405 | the loop with its two shrinking lists computes these outcomes, and partitions any distinct machines and the nodes |
| Links.ExtractLink | exordos_core/elements/dm/models.py:86-99 | the extracted resource link is a prefix of the full link without parameter |
| Links.ExtractMeaning | exordos_core/elements/dm/models.py:86-99 | a link is cut behind the first occurrence of its last part that starts with a dollar sign; without such a part there is none |
| Links.ClearedLink | exordos_core/elements/dm/utils.py:54-61 | clearing parameters leaves a resource link alone and takes a parameter off it |
| Links.NothingToClear | exordos_core/elements/dm/utils.py:54-61 | a link without a colon is its own cleared form |
| Elements.IndexUnique | exordos_core/elements/dm/models.py:1055-1087 | a database has at most one index that agrees with it |
| Elements.LinkedCutIff | exordos_core/elements/dm/models.py:1009-1024 | deleting entries with their rows keeps a namespace's links in agreement if and only if no other row of the element is lost |
| Elements.IndexedIsLoadable | exordos_core/elements/dm/models.py:1055-1087 | a database with an index has distinct links, distinct export links, and exports that lead somewhere |
| ElementEngine.Engine.AddResource | exordos_core/elements/dm/models.py:1089-1097 | the entry is added under its link, or refused |
| ElementEngine.Engine.AddResourceByExport | exordos_core/elements/dm/models.py:1136-1147 | the exported entry is looked up without its parameter and indexed under the full link, or refused |
| ElementEngine.Engine.LoadFromDatabase | exordos_core/elements/dm/models.py:1055-1087 | rebuilding succeeds if and only if the database has an index, and then yields it |
| TableSync.SyncDrop | exordos_core/elements/dm/models.py:219-350 | once the left-over rows are dropped, the rows are exactly the items, and keys stored before kept their identifiers |
| ManifestImports.ImportPhase | exordos_core/elements/dm/models.py:219-271 | the element's imports become the manifest's with their sources, nobody else's change, and all namespaces keep the links of their rows |
| ManifestResources.ResolveMeaning | exordos_core/elements/dm/models.py:63-103 | a prefix, cut there, stays as it is through an own resource or an element alone; through an import it becomes the link of the imported resource and the rest; else it is refused |
| ManifestResources.ProviderIsFirst | exordos_core/elements/dm/models.py:755-758 | a resource's provider is the element its prefix begins with |
| ManifestResources.ResourcePhase | exordos_core/elements/dm/models.py:307-350 | the element's resources become the manifest's under their resolved prefixes, and surviving keys keep their identifiers |
| ManifestResources.ResourcePhaseLinks | exordos_core/elements/dm/models.py:307-350 | afterwards a namespace has the links of its rows if and only if no import of its element came from a dropped resource |
| ManifestExports.ExportPhase | exordos_core/elements/dm/models.py:273-305 | the element's exports become the manifest's, and surviving names keep their identifiers |
| ExportIndex.ExportedIff | exordos_core/elements/dm/models.py:273-305 | afterwards the export index agrees with the rows if and only if the exports that stay have the same links as before, in any order, and these lead to the entries they were indexed with |
| Installation.AppliedResources | exordos_core/elements/dm/models.py:307-361 | after an error-free upgrade the stored keys (resolved prefix, name) are exactly the manifest's and surviving keys keep their identifier |
| StoredResources.AppliedStores | exordos_core/elements/dm/models.py:307-361 | after an error-free upgrade every resource of the manifest is stored with its value under the prefix its group's prefix resolves to |
| StoredResources.StoredThroughImport | exordos_core/elements/dm/models.py:63-103 | a resource whose prefix goes through an import of the manifest is stored under the imported resource's own link and the rest of the prefix |
| StoredResources.ImportPrefixParts | exordos_core/elements/dm/models.py:86-99 | a prefix `$element.imports.$name` and more parts goes through the import, unless the import has the element's own name |
| Installation.AppliedExports | exordos_core/elements/dm/models.py:273-361 | the same for exports |
| Installation.AppliedImports | exordos_core/elements/dm/models.py:219-361 | the same for imports, but for those whose source the manifest drops, which is also all that other elements lose |
| Installation.LinksFollowIff | exordos_core/elements/dm/models.py:198-350 | after an error-free upgrade the links of any element's namespace equal those of its stored imports and resources if and only if none of its imports came from a dropped resource |
| Installation.NamespacesFollowIff | exordos_core/elements/dm/models.py:198-361 | after an error-free upgrade links and entries of all namespaces equal the stored imports and resources if and only if no stored import changed its source and no import lost it |
| Installation.ExportsFollowIff | exordos_core/elements/dm/models.py:198-361 | after an error-free upgrade the export index equals the stored exports if and only if the exports that stay keep their links, in any order, and the manifest still names what these lead to |
| Installation.AppliedAgreesIff | exordos_core/elements/dm/models.py:198-361 | an error-free upgrade leaves the index of the resulting database if and only if both hold |
| Installation.InstallAgreesWithReload | exordos_core/elements/dm/models.py:174-196 | a successful installation leaves exactly the index that a reload of the resulting database builds, and that reload succeeds |
| Installation.EmptyUpgradeStrandsImporters | exordos_core/elements/dm/models.py:198-213 | an upgrade to an empty manifest succeeds and leaves importers with an indexed import that has no row |
| ManifestRuns.RunIsolates | exordos_core/elements/dm/models.py:174-361 | over every history of installations and upgrades the database stays sound, and no call touches another element's resources or exports |
| ManifestRuns.LastManifestDecides | exordos_core/elements/dm/models.py:174-361 | whatever is installed or upgraded afterwards, an element's stored resources and exports are those of the last manifest applied to it |
| ManifestService.ManifestStore.ApplyImports | exordos_core/elements/dm/models.py:219-271 | the loops over items and left-over rows, in place, follow the specification |
| ManifestService.ManifestStore.ApplyResources | exordos_core/elements/dm/models.py:307-350 | likewise for resources, with the imports the database deletes along |
| ManifestService.ManifestStore.ApplyExports | exordos_core/elements/dm/models.py:273-305 | likewise for exports |
| ManifestService.ManifestStore.Install | exordos_core/elements/dm/models.py:174-196 | installing follows the specification on the loaded database, is refused when it cannot be loaded, and leaves the index of the result |
| ManifestService.ManifestStore.Upgrade | exordos_core/elements/dm/models.py:198-213 | upgrading follows the specification on the loaded database |
| Rendering.DepthDoesNotMatter | exordos_core/elements/dm/models.py:706-749 | a target state has one rendering, however deep the recursion may go |
| Rendering.StateEnds | exordos_core/elements/dm/models.py:626-749 | where references between resources without an actual state are acyclic every rendering ends within its rank |
| Rendering.RendersIffAcyclic | exordos_core/elements/dm/models.py:626-749 | where no reference fails all target states are rendered if and only if those references are acyclic |
| Rendering.CycleNeverRenders | exordos_core/elements/dm/models.py:655-749 | a resource that reads itself, directly or through others, is never rendered |
| TargetStates.RenderedIff | exordos_core/elements/dm/models.py:626-749 | a target state is rendered to a value, at some depth, if and only if that value is the resource's with every reference replaced by the end of its path from the referred resource's reported or rendered state, every template by its text, everything else kept, and the identifier added where missing |
| TargetStates.FollowIff | exordos_core/elements/dm/models.py:650-652 | following a path ends at a value if and only if a chain of dictionaries leads there, each entry the first with its key |
| LinkForms.ReadAsWritten | exordos_core/elements/dm/utils.py:54-75 | a reference written as a location and parameters behind colons is read back as these |
| Templates.TemplateMeans | exordos_core/elements/dm/models.py:673-702 | a template stands for its plain text with the references between braces filled in and escaped braces without their backslash |
| NodeSets.WantedMeaning | exordos_core/compute/node_set/dm/models.py:54-74 | exactly the replicas are generated, the first existing identifiers in order, distinct ones staying distinct |
| NodeSets.TargetsInOrder | exordos_core/compute/builders/node_set.py:108-121 | the identifiers taken over are those of the node targets, each at its place |
| NodeSets.LengthTestIff | exordos_core/compute/builders/node_set.py:124-156 | the length test holds if and only if every target node is reported active, by counting distinct identifiers |
| NodeSets.ActiveIff | exordos_core/compute/builders/node_set.py:150-165 | exactly when a set is active after a reconcile |
| NodeSets.StatusIs | exordos_core/compute/builders/node_set.py:150-165 | active when every wanted node is reported so, else an error of a wanted node, then a new one, then one in progress, else the set's own status |
| NodeSets.NodeSet.GenNodes | exordos_core/compute/node_set/dm/models.py:44-74 | the counted loop generates these nodes |
| NodeSets.NodeSet.ActualizeInfra | exordos_core/compute/builders/node_set.py:86-167 | targets, recorded nodes and status after a reconcile; the first node targets, as many as replicas, stay targets |
| MachineBoot.RunAgrees | exordos_core/compute/builders/pool.py:221-361 | over every run machine, pool target and guest target agree on boot mode and image |
| MachineBoot.RunPortFits | exordos_core/compute/builders/pool.py:255-346 | over every run network boot is on a build's boot network with the drawn hardware address and no address, disk boot on one of the node's own ports |
| MachineBoot.NetworkIffNoAddress | exordos_core/compute/builders/pool.py:255-346 | where the node's ports have addresses, over every run the machine boots from the network if and only if its port has none |
| MachineBoot.LastDecisionCounts | exordos_core/compute/builders/pool.py:255-346 | only a build and a report of a flashed network boot ever change the boot mode, and the last of these decides |
| MachineBoot.FirstBuildDecides | exordos_core/compute/builders/pool.py:221-346 | until the next build a machine has the first build's image, and boots from the network if and only if that build asked for a flashing that is not reported yet: a new machine of the core set starts from its disk |
| MachineBoot.BootAfterBuild | exordos_core/compute/builders/pool.py:255-346 | after a build and any reports the machine boots from the network if and only if it was new and not of the core set, or its guest had another image, and no flashed network boot was reported since; from its disk otherwise |
| MachineBoot.LastReportsCount | exordos_core/compute/builders/pool.py:363-396 | the status is what the last report of both agents makes of it: an error wins, then new, active are both or none |
| MachineBoot.ReflashedOnce | exordos_core/compute/builders/pool.py:270-346 | a machine whose guest reports another image boots from the network until, and only until, it is reported flashed |
| MachineBoot.RepeatedReportsChangeNothing | exordos_core/compute/builders/pool.py:302-361 | over every run, handling the last reports again, any number of times, changes nothing |
| MachineBoot.EarlyUpdateBootsFromDisk | exordos_core/compute/builders/pool.py:255-277 | an update before the guest has reported selects the disk without flashing |
| MachineBoot.MachineRecord.Actualize | exordos_core/compute/builders/pool.py:221-300 | machine and derivatives after a create or update step |
| MachineBoot.MachineRecord.ActualizeOutdated | exordos_core/compute/builders/pool.py:302-361 | machine and derivatives after an outdated step |
| MachineBoot.MachineRecord.FetchDeps | exordos_core/compute/builders/pool.py:110-136 | the first port and the volume of lowest index, or a failure when one is missing |
| VolumeBuilder.RunConservesIff | exordos_core/compute/builders/pool.py:420-500 | over any run a pool within its capacity stays within it, and provisioned capacity follows the sizes of the admitted volumes if and only if no admitted volume is admitted for creation again |
| VolumeBuilder.VolumeHooks.CanCreateVolume | exordos_core/compute/builders/pool.py:445-471 | a volume is admitted exactly when it fits, else removed, with its machine if it is the root volume |
| VolumeBuilder.VolumeHooks.CanUpdateVolume | exordos_core/compute/builders/pool.py:473-500 | another size is admitted exactly when the growth fits, else the volume is in error |
| Rfc3442.DecodeFormatted | exordos_core/network/dhcp/isc.py:32-47 | the format of RFC 3442, section "Classless Route Option Format", reads back to the routes it was made of |
| Rfc3442.DecodedIsFormatted | exordos_core/network/dhcp/isc.py:32-47 | what a client reads has one representation only |
| Rfc3442.CarriedAre | exordos_core/network/dhcp/isc.py:105-123 | the routes carried are those with a prefix in their order and then the first default route |
| Rfc3442.ReadsBackIff | exordos_core/network/dhcp/isc.py:105-123 | a client reads the non-default routes in order and then the first default one if and only if each has a last significant octet other than zero |
| Rfc3442.TrailingZeroIsMisread | exordos_core/network/dhcp/isc.py:38-47 | 10.0.0.0/16 is not read back |
| Rfc3442.ToRfc3442 | exordos_core/network/dhcp/isc.py:32-47 | the backward loop strips exactly the zero octets at the end |
| Rfc3442.StaticRoutes | exordos_core/network/dhcp/isc.py:105-123 | the loop and the search for the default route write the specified list |

## Left out

- Database sessions, HTTP, systemd, file hashing, JSON, logging, threads and random generation: a failing call is a parameter or an outcome, a drawn identifier or hardware address an input. A refused manifest call promises nothing about the state, which its caller rolls back.
- Concurrent changes while one iteration runs; DNS writes during a cycle, which the fast path can miss.
- The remote DNS side is an outside program: that it refuses to create a record twice and to update or delete a missing one (`DnsSync.Accepts`) is an assumption about its API, and so is that every other request is carried out.
- IAM, bootstrap, telemetry, user API, profiles, configs and SSH keys: what they promise rests on libraries not in the repository, or is a plain copy of fields.
- The concrete filters and weighters of the scheduler other than the availability filter, and the rescheduling of pools and builders.
- Save failures in the scheduler: a failed save is only logged, and the resources stay subtracted.
- Weights are real numbers and the capacity of a thin pool is the floor of a real product; floating-point rounding is not modelled.
- The text of the DHCP configuration other than the static route list: only whether it can be rendered, which needs name servers and routers for every subnet (one flag) and an address and a hardware address for every port.
- Hashes of the DHCP configuration: one flag says whether the stored context matches it.
- Node records: `default_network` of a node is not updated together with its port, and the `interface` field of ports is not kept.
- Namespaces are values inside the engine, not objects of their own; the schemas, `uninstall` and `apply_requirements` are not modelled.
- Element names stand for elements (the database makes them unique); versions, descriptions, kinds of imports and exports (an enumeration of one value) and length limits are left out.
- The object mapper is taken to refuse an import whose source is itself an import, and the database to enforce its unique names and foreign keys.
- Rendering: what the four methods a manifest may call on a resource return, and how a value is written as text, are parameters; only their place in the recursion is modelled.
- Rendering.RendersIffAcyclic: assumes that no reference fails, because a failing reference ends a rendering before a later cycle is met.
- Builders: a missing boot network, guest agents, names, cores and memory copied into the derivatives, the checks before a machine is created or updated, and deletion.
- VolumeBuilder.RunConservesIff: assumes that all volumes refer to one pool object, which a comment in the code doubts.
- Rfc3442.ReadsBackIff: is about routes without octets set after the significant ones, as networks are written.
