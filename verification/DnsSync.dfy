/**
 Synchronisation of DNS records to the ecosystem: the full diff, the timestamp-driven
 fast path, and the choice between them.
 */
module DnsSync {
  import opened Common

  /** What is sent, and what is compared: `type`, `ttl`, `disabled`, `record`. */
  datatype RecordData = RecordData(kind: string, ttl: int, disabled: bool, content: string)

  datatype Record = Record(domain: string, data: RecordData, createdAt: int, updatedAt: int)

  /** A remote record; `other` stands for the fields the sync neither sends nor compares. */
  datatype RemoteRecord = RemoteRecord(data: RecordData, other: string)

  /** One remote domain: records with an identifier, and those without. */
  datatype Zone = Zone(records: map<Uuid, RemoteRecord>, anonymous: seq<RemoteRecord>)

  const EMPTY_ZONE := Zone(map[], [])

  datatype Call =
    | Post(domain: string, uid: Uuid, data: RecordData)
    | Put(domain: string, uid: Uuid, data: RecordData)
    | Delete(domain: string, uid: Uuid)

  predicate IsSoa(d: RecordData) {
    d.kind == "SOA"
  }

  // ---- The remote side ----

  /** The remote rejects creating what exists and changing what does not. */
  predicate Accepts(z: Zone, c: Call) {
    if c.Post? then c.uid !in z.records else c.uid in z.records
  }

  function ZoneAfter(z: Zone, c: Call): Zone {
    if !Accepts(z, c) then z
    else
      match c
      case Post(_, u, data) => z.(records := z.records[u := RemoteRecord(data, "")])
      case Put(_, u, data) => z.(records := z.records[u := z.records[u].(data := data)])
      case Delete(_, u) => z.(records := z.records - {u})
  }

  class Ecosystem {
    var zones: map<string, Zone>
    var calls: seq<Call>

    constructor (initial: map<string, Zone>)
      ensures zones == initial && calls == []
    {
      zones, calls := initial, [];
    }

    /** One request about a record of a known domain; `ok` is false when it is rejected. */
    method Request(c: Call) returns (ok: bool)
      requires c.domain in zones
      modifies this
      ensures ok == Accepts(old(zones)[c.domain], c)
      ensures zones == old(zones)[c.domain := ZoneAfter(old(zones)[c.domain], c)]
      ensures calls == old(calls) + [c]
    {
      ok := Accepts(zones[c.domain], c);
      zones := zones[c.domain := ZoneAfter(zones[c.domain], c)];
      calls := calls + [c];
    }

    method CreateDomain(name: string)
      requires name !in zones
      modifies this
      ensures zones == old(zones)[name := EMPTY_ZONE] && calls == old(calls)
    {
      zones := zones[name := EMPTY_ZONE];
    }
  }

  // ---- Full synchronisation of one domain ----

  /** The local records of a domain that take part (SOA records never do). */
  function Local(db: map<Uuid, Record>, domain: string): map<Uuid, RecordData> {
    map u | u in db && db[u].domain == domain && !IsSoa(db[u].data) :: db[u].data
  }

  function Visible(z: Zone): set<Uuid> {
    set u | u in z.records && !IsSoa(z.records[u].data)
  }

  ghost predicate NoSoa(local: map<Uuid, RecordData>) {
    forall u | u in local :: !IsSoa(local[u])
  }

  function FullZone(local: map<Uuid, RecordData>, z: Zone): Zone {
    z.(records :=
      map u | u in z.records.Keys + local.Keys && (u in local || u !in Visible(z)) ::
        if u !in z.records then RemoteRecord(local[u], "")
        else if u in local && u in Visible(z) then z.records[u].(data := local[u])
        else z.records[u])
  }

  /** The requests a full synchronisation sends. */
  function FullCalls(domain: string, local: map<Uuid, RecordData>, z: Zone): set<Call> {
    (set u | u in local && u !in Visible(z) :: Post(domain, u, local[u]))
    + (set u | u in local && u in Visible(z) && z.records[u].data != local[u] :: Put(domain, u, local[u]))
    + (set u | u in Visible(z) && u !in local :: Delete(domain, u))
  }

  ghost predicate InSync(local: map<Uuid, RecordData>, z: Zone) {
    && Visible(z) == local.Keys
    && (forall u | u in local :: z.records[u].data == local[u])
  }

  /** A local record whose identifier a remote SOA record already uses. */
  ghost predicate SoaClash(local: map<Uuid, RecordData>, z: Zone) {
    exists u | u in local && u in z.records :: IsSoa(z.records[u].data)
  }

  /** A full synchronisation settles the domain from any remote state, unless and only
      unless an identifier clashes with a remote SOA record. */
  lemma FullSettlesIff(local: map<Uuid, RecordData>, z: Zone)
    requires NoSoa(local)
    ensures InSync(local, FullZone(local, z)) <==> !SoaClash(local, z)
  {
    var z' := FullZone(local, z);
    if SoaClash(local, z) {
      var u :| u in local && u in z.records && IsSoa(z.records[u].data);
      assert z'.records[u] == z.records[u];
      assert u !in Visible(z');
    } else {
      forall u
        ensures u in Visible(z') <==> u in local
      {
      }
    }
  }

  /** Nothing else remote changes. */
  lemma FullLeavesOthers(local: map<Uuid, RecordData>, z: Zone)
    ensures FullZone(local, z).anonymous == z.anonymous
    ensures forall u | u in z.records && IsSoa(z.records[u].data) ::
              u in FullZone(local, z).records && FullZone(local, z).records[u] == z.records[u]
    ensures forall u | u in z.records && u in FullZone(local, z).records ::
              FullZone(local, z).records[u].other == z.records[u].other
  {
  }

  /** No request is sent exactly when the domain is in sync. */
  lemma QuietIffInSync(domain: string, local: map<Uuid, RecordData>, z: Zone)
    requires NoSoa(local)
    ensures FullCalls(domain, local, z) == {} <==> InSync(local, z)
  {
    if FullCalls(domain, local, z) == {} {
      forall u | u in local
        ensures u in Visible(z) && z.records[u].data == local[u]
      {
        assert Post(domain, u, local[u]) !in FullCalls(domain, local, z);
        assert Put(domain, u, local[u]) !in FullCalls(domain, local, z);
      }
      forall u | u in Visible(z)
        ensures u in local
      {
        assert Delete(domain, u) !in FullCalls(domain, local, z);
      }
    }
  }

  /** An immediate second run is silent and changes nothing. */
  lemma FullIsIdempotent(domain: string, local: map<Uuid, RecordData>, z: Zone)
    requires NoSoa(local) && !SoaClash(local, z)
    ensures FullCalls(domain, local, FullZone(local, z)) == {}
    ensures FullZone(local, FullZone(local, z)) == FullZone(local, z)
  {
    FullSettlesIff(local, z);
    QuietIffInSync(domain, local, FullZone(local, z));
  }

  // ---- The fast path ----

  /** Records of a domain touched at or after `since`. */
  function Recent(db: map<Uuid, Record>, domain: string, since: int): map<Uuid, Record> {
    map u | u in db && db[u].domain == domain && !IsSoa(db[u].data) && db[u].updatedAt >= since :: db[u]
  }

  /** A record created at or after `since` is posted, an older one is put. */
  function FastCall(domain: string, u: Uuid, r: Record, since: int): Call {
    if r.createdAt >= since then Post(domain, u, r.data) else Put(domain, u, r.data)
  }

  function FastZone(domain: string, recent: map<Uuid, Record>, z: Zone, since: int): Zone {
    z.(records :=
      map u | u in z.records.Keys + recent.Keys && (u in z.records || recent[u].createdAt >= since) ::
        if u !in z.records then RemoteRecord(recent[u].data, "")
        else if u in recent && recent[u].createdAt < since then z.records[u].(data := recent[u].data)
        else z.records[u])
  }

  function FastCalls(domain: string, recent: map<Uuid, Record>, since: int): set<Call> {
    set u | u in recent :: FastCall(domain, u, recent[u], since)
  }

  /** Each request of the fast path concerns its own record, so their order is immaterial. */
  lemma OneMoreFast(domain: string, done: map<Uuid, Record>, z: Zone, since: int, u: Uuid, r: Record)
    requires u !in done
    ensures FastZone(domain, done[u := r], z, since)
         == ZoneAfter(FastZone(domain, done, z, since), FastCall(domain, u, r, since))
    ensures Accepts(FastZone(domain, done, z, since), FastCall(domain, u, r, since))
       <==> (u in z.records <==> r.createdAt < since)
  {
    assert ZoneAfter(FastZone(domain, done, z, since), FastCall(domain, u, r, since)).records
        == FastZone(domain, done[u := r], z, since).records;
  }

  // ---- Histories: local writes between synchronisation cycles ----

  /** One domain with its remote zone; `clock` is later than every time recorded so far. */
  datatype History = History(domain: string, db: map<Uuid, Record>, zone: Zone, since: int, clock: int)

  datatype Event =
    | CreateRecord(uid: Uuid, data: RecordData)
    | UpdateRecord(uid: Uuid, data: RecordData)
    | RemoveRecord(uid: Uuid)
    | FastCycle
    | FullCycle

  /** New records get fresh identifiers and a kind other than SOA stays other than SOA. */
  predicate Possible(h: History, e: Event) {
    match e
    case CreateRecord(u, data) => u !in h.db && u !in h.zone.records
    case UpdateRecord(u, data) => u in h.db && (IsSoa(data) <==> IsSoa(h.db[u].data))
    case RemoveRecord(u) => u in h.db
    case FastCycle => true
    case FullCycle => true
  }

  function Apply(h: History, e: Event): History
    requires Possible(h, e)
  {
    var h' :=
      match e
      case CreateRecord(u, data) => h.(db := h.db[u := Record(h.domain, data, h.clock, h.clock)])
      case UpdateRecord(u, data) => h.(db := h.db[u := h.db[u].(data := data, updatedAt := h.clock)])
      case RemoveRecord(u) => h.(db := h.db - {u})
      case FastCycle => h.(zone := FastZone(h.domain, Recent(h.db, h.domain, h.since), h.zone, h.since), since := h.clock)
      case FullCycle => h.(zone := FullZone(Local(h.db, h.domain), h.zone), since := h.clock);
    h'.(clock := h.clock + 1)
  }

  /** The local record takes part: it is of this domain and not an SOA record. */
  ghost predicate TakesPart(h: History, u: Uuid) {
    u in h.db && h.db[u].domain == h.domain && h.db[u].data.kind != "SOA"
  }

  /** The zone has the record, and it is not an SOA record. */
  ghost predicate Shown(z: Zone, u: Uuid) {
    u in z.records && z.records[u].data.kind != "SOA"
  }

  /** But for SOA records, the zone has exactly the local records of the domain. */
  ghost predicate Mirrors(h: History, z: Zone) {
    && (forall u :: Shown(z, u) <==> TakesPart(h, u))
    && (forall u | TakesPart(h, u) :: u in z.records && z.records[u].data == h.db[u].data)
  }

  /** After a full cycle the zone mirrors the local records, unless and only unless one of
      them has the identifier of a remote SOA record. */
  lemma FullMirrorsIff(h: History)
    ensures Mirrors(h, Apply(h, FullCycle).zone) <==> forall u | TakesPart(h, u) && u in h.zone.records :: Shown(h.zone, u)
  {
    var local, z := Local(h.db, h.domain), Apply(h, FullCycle).zone;
    assert forall u :: TakesPart(h, u) <==> u in local;
    assert forall u :: Shown(z, u) <==> u in Visible(z);
    FullSettlesIff(local, h.zone);
  }

  /** Which requests a full cycle sends: nothing about SOA records, and of the others one for
      each record that is missing, differs, or has no local counterpart. */
  lemma FullRequestsAre(h: History, c: Call)
    ensures c in FullCalls(h.domain, Local(h.db, h.domain), h.zone) <==>
              && c.domain == h.domain
              && match c
                 case Post(_, u, data) => TakesPart(h, u) && !Shown(h.zone, u) && data == h.db[u].data
                 case Put(_, u, data) =>
                   TakesPart(h, u) && Shown(h.zone, u) && data == h.db[u].data && h.zone.records[u].data != data
                 case Delete(_, u) => Shown(h.zone, u) && !TakesPart(h, u)
  {
    var local := Local(h.db, h.domain);
    assert TakesPart(h, c.uid) <==> c.uid in local;
    assert Shown(h.zone, c.uid) <==> c.uid in Visible(h.zone);
  }

  /** Which requests a fast cycle sends: one for each local record, SOA records apart, that was
      written at or after `since`, a creation if it was also created then. */
  lemma FastRequestsAre(h: History, c: Call)
    ensures c in FastCalls(h.domain, Recent(h.db, h.domain, h.since), h.since) <==>
              && c.domain == h.domain && !c.Delete?
              && TakesPart(h, c.uid) && c.data == h.db[c.uid].data && h.db[c.uid].updatedAt >= h.since
              && (c.Post? <==> h.db[c.uid].createdAt >= h.since)
  {
    var recent := Recent(h.db, h.domain, h.since);
    if c.uid in recent {
      assert FastCall(h.domain, c.uid, recent[c.uid], h.since) in FastCalls(h.domain, recent, h.since);
    }
  }

  /** The timestamps tell exactly what the zone already has. */
  ghost predicate Tracks(h: History) {
    && h.since <= h.clock
    && !SoaClash(Local(h.db, h.domain), h.zone)
    && (forall u | u in h.db && h.db[u].domain == h.domain && !IsSoa(h.db[u].data) ::
          var r := h.db[u];
          && r.createdAt <= r.updatedAt < h.clock
          && (u in h.zone.records <==> r.createdAt < h.since)
          && (r.updatedAt < h.since ==> h.zone.records[u].data == r.data))
  }

  /** Remote records whose local counterpart is gone. */
  ghost function Stale(h: History): set<Uuid> {
    Visible(h.zone) - Local(h.db, h.domain).Keys
  }

  lemma WriteKeepsTracks(h: History, e: Event)
    requires Tracks(h) && Possible(h, e) && !e.FastCycle? && !e.FullCycle?
    ensures Tracks(Apply(h, e))
  {
  }

  lemma FastKeepsTracks(h: History)
    requires Tracks(h)
    ensures Tracks(Apply(h, FastCycle))
  {
    var h' := Apply(h, FastCycle);
    var recent := Recent(h.db, h.domain, h.since);
    assert h'.zone == FastZone(h.domain, recent, h.zone, h.since);
  }

  lemma FullKeepsTracks(h: History)
    requires Tracks(h)
    ensures Tracks(Apply(h, FullCycle))
    ensures InSync(Local(h.db, h.domain), Apply(h, FullCycle).zone)
  {
    FullSettlesIff(Local(h.db, h.domain), h.zone);
  }

  /** No fast request posts an existing record or puts a missing one. */
  lemma FastCallsAccepted(h: History, u: Uuid)
    requires Tracks(h) && u in Recent(h.db, h.domain, h.since)
    ensures Accepts(h.zone, FastCall(h.domain, u, h.db[u], h.since))
  {
  }

  lemma FastCoversLocal(h: History)
    requires Tracks(h)
    ensures var fast, full := Apply(h, FastCycle).zone.records, Apply(h, FullCycle).zone.records;
            forall u | u in Local(h.db, h.domain) ::
              && u in fast && u in full && fast[u] == full[u]
              && fast[u].data == Local(h.db, h.domain)[u]
  {
  }

  /** Whatever happens, what is written to a record is on the remote side after the next
      cycle, fast or full. */
  lemma WritesArrive(h: History, write: Event, cycle: Event)
    requires Tracks(h) && Possible(h, write) && (cycle == FastCycle || cycle == FullCycle)
    requires write.CreateRecord? || (write.UpdateRecord? && h.db[write.uid].domain == h.domain)
    requires write.data.kind != "SOA"
    ensures var z := Apply(Apply(h, write), cycle).zone;
            write.uid in z.records && z.records[write.uid].data == write.data
  {
    WriteKeepsTracks(h, write);
    FastCoversLocal(Apply(h, write));
    assert write.uid in Local(Apply(h, write).db, h.domain);
  }

  lemma FastKeepsStale(h: History)
    requires Tracks(h)
    ensures Visible(Apply(h, FastCycle).zone) == Local(h.db, h.domain).Keys + Stale(h)
  {
    var fast := Apply(h, FastCycle).zone;
    FastCoversLocal(h);
    forall u
      ensures u in Visible(fast) <==> u in Local(h.db, h.domain) || u in Stale(h)
    {
    }
  }

  /** The fast path is as good as the full one exactly when nothing was removed since. */
  lemma FastRefinesFullIff(h: History)
    requires Tracks(h)
    ensures Apply(h, FastCycle).zone == Apply(h, FullCycle).zone <==> Stale(h) == {}
  {
    var fast, full := Apply(h, FastCycle).zone, Apply(h, FullCycle).zone;
    FastCoversLocal(h);
    FullKeepsTracks(h);
    FastKeepsStale(h);
    if Stale(h) == {} {
      SameZone(h);
    } else {
      assert Visible(fast) != Visible(full);
    }
  }

  lemma SameZone(h: History)
    requires Tracks(h) && Stale(h) == {}
    ensures Apply(h, FastCycle).zone.records == Apply(h, FullCycle).zone.records
  {
    FastCoversLocal(h);
    var local := Local(h.db, h.domain);
    forall u | u in h.zone.records && u !in local
      ensures u !in Visible(h.zone)
    {
      assert u !in Stale(h);
    }
  }

  ghost predicate PossibleRun(h: History, events: seq<Event>)
    decreases events
  {
    events != [] ==> Possible(h, events[0]) && PossibleRun(Apply(h, events[0]), events[1..])
  }

  ghost function ApplyAll(h: History, events: seq<Event>): History
    requires PossibleRun(h, events)
    decreases events
  {
    if events == [] then h else ApplyAll(Apply(h, events[0]), events[1..])
  }

  /** The invariant over every history of writes and cycles. */
  lemma {:induction false} RunKeepsTracks(h: History, events: seq<Event>)
    requires Tracks(h) && PossibleRun(h, events)
    ensures Tracks(ApplyAll(h, events))
    decreases events
  {
    if events != [] {
      if events[0].FastCycle? {
        FastKeepsTracks(h);
      } else if events[0].FullCycle? {
        FullKeepsTracks(h);
      } else {
        WriteKeepsTracks(h, events[0]);
      }
      RunKeepsTracks(Apply(h, events[0]), events[1..]);
    }
  }

  // ---- Histories of the service, which begin with a full cycle ----

  /** Every record was created, and last written, before now. */
  ghost predicate Dated(h: History) {
    forall u | u in h.db && h.db[u].domain == h.domain && !IsSoa(h.db[u].data) ::
      h.db[u].createdAt <= h.db[u].updatedAt < h.clock
  }

  /** A full cycle, from any remote state and whatever `since` was, makes the timestamps tell
      what the zone has. */
  lemma {:induction false} FullEstablishesTracks(h: History)
    requires Dated(h) && !SoaClash(Local(h.db, h.domain), h.zone)
    ensures Tracks(Apply(h, FullCycle))
  {
    FullSettlesIff(Local(h.db, h.domain), h.zone);
  }

  /** Over every history that begins with a full cycle, from any local and remote records:
      the next fast cycle never posts an existing record nor puts a missing one, and it
      leaves the zone a full one would leave exactly when nothing was removed. */
  lemma {:induction false} FastCyclesOverRuns(h: History, events: seq<Event>)
    requires Dated(h) && !SoaClash(Local(h.db, h.domain), h.zone)
    requires PossibleRun(Apply(h, FullCycle), events)
    ensures var g := ApplyAll(Apply(h, FullCycle), events);
            && (forall u | u in Recent(g.db, g.domain, g.since) :: Accepts(g.zone, FastCall(g.domain, u, g.db[u], g.since)))
            && (Apply(g, FastCycle).zone == Apply(g, FullCycle).zone <==> Stale(g) == {})
  {
    FullEstablishesTracks(h);
    RunKeepsTracks(Apply(h, FullCycle), events);
    var g := ApplyAll(Apply(h, FullCycle), events);
    forall u | u in Recent(g.db, g.domain, g.since)
      ensures Accepts(g.zone, FastCall(g.domain, u, g.db[u], g.since))
    {
      FastCallsAccepted(g, u);
    }
    FastRefinesFullIff(g);
  }

  /** A zone that has these anonymous and SOA records. */
  ghost predicate Contains(z: Zone, others: Zone) {
    && z.anonymous == others.anonymous
    && (forall u | u in others.records && IsSoa(others.records[u].data) ::
          u in z.records && z.records[u] == others.records[u])
  }

  /** Over every such history the records that are not synchronised stay as they are. */
  lemma {:induction false} RunLeavesOthers(h: History, events: seq<Event>, others: Zone)
    requires Tracks(h) && PossibleRun(h, events) && Contains(h.zone, others)
    ensures Contains(ApplyAll(h, events).zone, others)
    decreases events
  {
    if events != [] {
      if events[0].FastCycle? {
        FastKeepsTracks(h);
        FastLeavesOthers(h, others);
      } else if events[0].FullCycle? {
        FullKeepsTracks(h);
        FullLeavesOthers(Local(h.db, h.domain), h.zone);
      } else {
        WriteKeepsTracks(h, events[0]);
      }
      RunLeavesOthers(Apply(h, events[0]), events[1..], others);
    }
  }

  lemma FastLeavesOthers(h: History, others: Zone)
    requires Tracks(h) && Contains(h.zone, others)
    ensures Contains(Apply(h, FastCycle).zone, others)
  {
    var recent := Recent(h.db, h.domain, h.since);
    forall u | u in others.records && IsSoa(others.records[u].data)
      ensures u !in recent
    {
      assert u in recent ==> u in Local(h.db, h.domain);
    }
  }
}
