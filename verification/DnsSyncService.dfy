/**
 The loops of the DNS synchronisation service.  Records and domains are visited in any
 order; the remote zones end up as the functions `FullZone` and `FastZone` say.
 */
module DnsSyncService {
  import opened Common
  import opened Keyed
  import opened DnsSync

  const FULL_SYNC_INTERVAL := 60

  lemma OneMoreSent(sent: set<Call>, c: Call)
    requires c !in sent
    ensures multiset(sent + {c}) == multiset(sent) + multiset{c}
  {
  }

  // ---- A full synchronisation in progress ----

  /** The identifiers already created, compared and deleted. */
  datatype Progress = Progress(created: set<Uuid>, updated: set<Uuid>, deleted: set<Uuid>)

  ghost function PartZone(local: map<Uuid, RecordData>, z: Zone, p: Progress): Zone
  {
    z.(records :=
      map u | u in z.records.Keys + p.created * local.Keys && u !in p.deleted ::
        if u !in z.records then RemoteRecord(local[u], "")
        else if u in p.updated * local.Keys then z.records[u].(data := local[u])
        else z.records[u])
  }

  ghost function PartCalls(domain: string, local: map<Uuid, RecordData>, z: Zone, p: Progress): set<Call>
  {
    (set u | u in p.created * local.Keys :: Post(domain, u, local[u]))
    + (set u | u in p.updated * local.Keys * Visible(z) && z.records[u].data != local[u] :: Put(domain, u, local[u]))
    + (set u | u in p.deleted :: Delete(domain, u))
  }

  function CreateRequest(domain: string, local: map<Uuid, RecordData>, u: Uuid): Option<Call> {
    if u in local then Some(Post(domain, u, local[u])) else None
  }

  /** Only a record that differs is sent. */
  function UpdateRequest(domain: string, local: map<Uuid, RecordData>, z: Zone, u: Uuid): Option<Call> {
    if u in local && u in z.records && z.records[u].data != local[u] then Some(Put(domain, u, local[u])) else None
  }

  /** The request for `u` takes the zone and the log from `done` to `done` with `u`. */
  ghost predicate Step(c: Option<Call>, domain: string, zoneAt: set<Uuid> -> Zone, sentAt: set<Uuid> -> set<Call>,
                       done: set<Uuid>, u: Uuid)
  {
    if c.None? then
      zoneAt(done + {u}) == zoneAt(done) && sentAt(done + {u}) == sentAt(done)
    else
      && c.value.domain == domain && c.value !in sentAt(done)
      && zoneAt(done + {u}) == ZoneAfter(zoneAt(done), c.value)
      && sentAt(done + {u}) == sentAt(done) + {c.value}
  }

  lemma CreateOne(domain: string, local: map<Uuid, RecordData>, z: Zone, done: set<Uuid>, u: Uuid)
    requires done <= local.Keys - Visible(z) && u in local.Keys - Visible(z) - done
    ensures var c := Post(domain, u, local[u]);
            var p, p' := Progress(done, {}, {}), Progress(done + {u}, {}, {});
            && PartZone(local, z, p') == ZoneAfter(PartZone(local, z, p), c)
            && c !in PartCalls(domain, local, z, p)
            && PartCalls(domain, local, z, p') == PartCalls(domain, local, z, p) + {c}
  {
    assert PartZone(local, z, Progress(done + {u}, {}, {})).records
        == ZoneAfter(PartZone(local, z, Progress(done, {}, {})), Post(domain, u, local[u])).records;
  }

  lemma UpdateOne(domain: string, local: map<Uuid, RecordData>, z: Zone, done: set<Uuid>, u: Uuid)
    requires done <= local.Keys * Visible(z) && u in local.Keys * Visible(z) - done
    ensures var missing := local.Keys - Visible(z);
            var c := Put(domain, u, local[u]);
            var p, p' := Progress(missing, done, {}), Progress(missing, done + {u}, {});
            if z.records[u].data == local[u] then
              PartZone(local, z, p') == PartZone(local, z, p)
              && PartCalls(domain, local, z, p') == PartCalls(domain, local, z, p)
            else
              && PartZone(local, z, p') == ZoneAfter(PartZone(local, z, p), c)
              && c !in PartCalls(domain, local, z, p)
              && PartCalls(domain, local, z, p') == PartCalls(domain, local, z, p) + {c}
  {
    var missing := local.Keys - Visible(z);
    var p, p' := Progress(missing, done, {}), Progress(missing, done + {u}, {});
    if z.records[u].data == local[u] {
      assert PartZone(local, z, p').records == PartZone(local, z, p).records;
    } else {
      assert PartZone(local, z, p').records == ZoneAfter(PartZone(local, z, p), Put(domain, u, local[u])).records;
    }
  }

  lemma DeleteOne(domain: string, local: map<Uuid, RecordData>, z: Zone, done: set<Uuid>, u: Uuid)
    requires done <= Visible(z) - local.Keys && u in Visible(z) - local.Keys - done
    ensures var missing, common := local.Keys - Visible(z), local.Keys * Visible(z);
            var c := Delete(domain, u);
            var p, p' := Progress(missing, common, done), Progress(missing, common, done + {u});
            && PartZone(local, z, p') == ZoneAfter(PartZone(local, z, p), c)
            && c !in PartCalls(domain, local, z, p)
            && PartCalls(domain, local, z, p') == PartCalls(domain, local, z, p) + {c}
  {
    var missing, common := local.Keys - Visible(z), local.Keys * Visible(z);
    assert PartZone(local, z, Progress(missing, common, done + {u})).records
        == ZoneAfter(PartZone(local, z, Progress(missing, common, done)), Delete(domain, u)).records;
  }

  /** A loop of the synchronisation over the identifiers of `all`. */
  ghost predicate Stepwise(all: set<Uuid>, request: Uuid -> Option<Call>, domain: string,
                           zoneAt: set<Uuid> -> Zone, sentAt: set<Uuid> -> set<Call>)
  {
    forall done, u :: done <= all && u in all - done ==> Step(request(u), domain, zoneAt, sentAt, done, u)
  }

  lemma CreatingIsStepwise(domain: string, local: map<Uuid, RecordData>, z: Zone, request: Uuid -> Option<Call>,
                           zoneAt: set<Uuid> -> Zone, sentAt: set<Uuid> -> set<Call>)
    requires forall done :: zoneAt(done) == PartZone(local, z, Progress(done, {}, {}))
    requires forall done :: sentAt(done) == PartCalls(domain, local, z, Progress(done, {}, {}))
    requires forall u :: request(u) == CreateRequest(domain, local, u)
    ensures Stepwise(local.Keys - Visible(z), request, domain, zoneAt, sentAt)
  {
    forall done, u | done <= local.Keys - Visible(z) && u in local.Keys - Visible(z) - done
      ensures Step(request(u), domain, zoneAt, sentAt, done, u)
    {
      CreateOne(domain, local, z, done, u);
    }
  }

  lemma UpdatingIsStepwise(domain: string, local: map<Uuid, RecordData>, z: Zone, request: Uuid -> Option<Call>,
                           zoneAt: set<Uuid> -> Zone, sentAt: set<Uuid> -> set<Call>)
    requires forall done :: zoneAt(done) == PartZone(local, z, Progress(local.Keys - Visible(z), done, {}))
    requires forall done :: sentAt(done) == PartCalls(domain, local, z, Progress(local.Keys - Visible(z), done, {}))
    requires forall u :: request(u) == UpdateRequest(domain, local, z, u)
    ensures Stepwise(local.Keys * Visible(z), request, domain, zoneAt, sentAt)
  {
    forall done, u | done <= local.Keys * Visible(z) && u in local.Keys * Visible(z) - done
      ensures Step(request(u), domain, zoneAt, sentAt, done, u)
    {
      UpdateOne(domain, local, z, done, u);
    }
  }

  lemma DeletingIsStepwise(domain: string, local: map<Uuid, RecordData>, z: Zone, request: Uuid -> Option<Call>,
                           zoneAt: set<Uuid> -> Zone, sentAt: set<Uuid> -> set<Call>)
    requires forall done :: zoneAt(done) == PartZone(local, z, Progress(local.Keys - Visible(z), local.Keys * Visible(z), done))
    requires forall done ::
      sentAt(done) == PartCalls(domain, local, z, Progress(local.Keys - Visible(z), local.Keys * Visible(z), done))
    requires forall u :: request(u) == Some(Delete(domain, u))
    ensures Stepwise(Visible(z) - local.Keys, request, domain, zoneAt, sentAt)
  {
    forall done, u | done <= Visible(z) - local.Keys && u in Visible(z) - local.Keys - done
      ensures Step(request(u), domain, zoneAt, sentAt, done, u)
    {
      DeleteOne(domain, local, z, done, u);
    }
  }

  lemma NothingYet(domain: string, local: map<Uuid, RecordData>, z: Zone)
    ensures PartZone(local, z, Progress({}, {}, {})) == z
    ensures PartCalls(domain, local, z, Progress({}, {}, {})) == {}
  {
    assert PartZone(local, z, Progress({}, {}, {})).records == z.records;
  }

  lemma AllDone(domain: string, local: map<Uuid, RecordData>, z: Zone)
    ensures var p := Progress(local.Keys - Visible(z), local.Keys * Visible(z), Visible(z) - local.Keys);
            && PartZone(local, z, p) == FullZone(local, z)
            && PartCalls(domain, local, z, p) == FullCalls(domain, local, z)
  {
    var p := Progress(local.Keys - Visible(z), local.Keys * Visible(z), Visible(z) - local.Keys);
    assert PartZone(local, z, p).records == FullZone(local, z).records;
  }

  /** Since a start with `zones` and `calls`, one domain has become `zone`, by sending every
      request of `sent` once. */
  ghost predicate Reached(eco: Ecosystem, zones: map<string, Zone>, calls: multiset<Call>, domain: string,
                          zone: Zone, sent: set<Call>)
    reads eco
  {
    eco.zones == zones[domain := zone] && multiset(eco.calls) == calls + multiset(sent)
  }

  /** The full synchronisation of `domain` is as far as `p` says. */
  ghost predicate At(eco: Ecosystem, zones: map<string, Zone>, calls: multiset<Call>, domain: string,
                     local: map<Uuid, RecordData>, z: Zone, p: Progress)
    reads eco
  {
    Reached(eco, zones, calls, domain, PartZone(local, z, p), PartCalls(domain, local, z, p))
  }

  // ---- The fast path in progress ----

  function Only<T>(m: map<Uuid, T>, us: set<Uuid>): map<Uuid, T> {
    map u | u in m && u in us :: m[u]
  }

  function FastRequest(domain: string, recent: map<Uuid, Record>, since: int, u: Uuid): Option<Call> {
    if u in recent then Some(FastCall(domain, u, recent[u], since)) else None
  }

  ghost function PartFastZone(domain: string, recent: map<Uuid, Record>, z: Zone, since: int, done: set<Uuid>): Zone {
    FastZone(domain, Only(recent, done), z, since)
  }

  ghost function PartFastCalls(domain: string, recent: map<Uuid, Record>, since: int, done: set<Uuid>): set<Call> {
    FastCalls(domain, Only(recent, done), since)
  }

  lemma FastIsStepwise(domain: string, recent: map<Uuid, Record>, z: Zone, since: int, request: Uuid -> Option<Call>,
                       zoneAt: set<Uuid> -> Zone, sentAt: set<Uuid> -> set<Call>)
    requires forall done :: zoneAt(done) == PartFastZone(domain, recent, z, since, done)
    requires forall done :: sentAt(done) == PartFastCalls(domain, recent, since, done)
    requires forall u :: request(u) == FastRequest(domain, recent, since, u)
    ensures Stepwise(recent.Keys, request, domain, zoneAt, sentAt)
  {
    forall done, u | done <= recent.Keys && u in recent.Keys - done
      ensures Step(request(u), domain, zoneAt, sentAt, done, u)
    {
      OneMoreOnly(recent, done, u);
      OneMoreFast(domain, Only(recent, done), z, since, u, recent[u]);
      OneMoreFastCall(domain, Only(recent, done), since, u, recent[u]);
    }
  }

  lemma OneMoreOnly<T>(m: map<Uuid, T>, us: set<Uuid>, u: Uuid)
    requires u in m && u !in us
    ensures Only(m, us + {u}) == Only(m, us)[u := m[u]]
  {
  }

  lemma OneMoreFastCall(domain: string, done: map<Uuid, Record>, since: int, u: Uuid, r: Record)
    requires u !in done
    ensures FastCalls(domain, done[u := r], since) == FastCalls(domain, done, since) + {FastCall(domain, u, r, since)}
    ensures FastCall(domain, u, r, since) !in FastCalls(domain, done, since)
  {
    var before, after := FastCalls(domain, done, since), FastCalls(domain, done[u := r], since);
    forall c | c in before
      ensures c in after
    {
      var v :| v in done && c == FastCall(domain, v, done[v], since);
      assert done[u := r][v] == done[v];
    }
    assert u in done[u := r];
    assert after <= before + {FastCall(domain, u, r, since)};
  }

  lemma FastBounds(domain: string, recent: map<Uuid, Record>, z: Zone, since: int)
    ensures PartFastZone(domain, recent, z, since, {}) == z
    ensures PartFastCalls(domain, recent, since, {}) == {}
    ensures PartFastZone(domain, recent, z, since, recent.Keys) == FastZone(domain, recent, z, since)
    ensures PartFastCalls(domain, recent, since, recent.Keys) == FastCalls(domain, recent, since)
  {
    assert Only(recent, {}) == map[];
    assert Only(recent, recent.Keys) == recent;
    assert FastZone(domain, map[], z, since).records == z.records;
  }

  // ---- All domains ----

  /** The remote zones once the domains of `done` went through a fast cycle. */
  function FastZones(db: map<Uuid, Record>, zones: map<string, Zone>, done: set<string>, since: int): map<string, Zone> {
    map d | d in zones :: if d in done then FastZone(d, Recent(db, d, since), zones[d], since) else zones[d]
  }

  /** ... and after a full cycle, which first creates a domain the remote side lacks. */
  function FullZones(db: map<Uuid, Record>, zones: map<string, Zone>, done: set<string>): map<string, Zone> {
    map d | d in zones.Keys + done ::
      if d in done then FullZone(Local(db, d), if d in zones then zones[d] else EMPTY_ZONE) else zones[d]
  }

  lemma OneMoreFastDomain(db: map<Uuid, Record>, zones: map<string, Zone>, done: set<string>, since: int, d: string)
    requires d !in done
    ensures FastZones(db, zones, done + {d}, since)
         == if d in zones then FastZones(db, zones, done, since)[d := FastZone(d, Recent(db, d, since), zones[d], since)]
            else FastZones(db, zones, done, since)
  {
  }

  lemma OneMoreFullDomain(db: map<Uuid, Record>, zones: map<string, Zone>, done: set<string>, d: string)
    requires d !in done
    ensures FullZones(db, zones, done + {d})
         == FullZones(db, zones, done)[d := FullZone(Local(db, d), if d in zones then zones[d] else EMPTY_ZONE)]
  {
  }

  /** Domains with nothing recent would not change. */
  lemma QuietDomains(db: map<Uuid, Record>, zones: map<string, Zone>, flagged: set<string>, busy: set<string>, since: int)
    requires busy <= flagged
    requires forall d | d in flagged - busy :: Recent(db, d, since) == map[]
    ensures FastZones(db, zones, busy, since) == FastZones(db, zones, flagged, since)
  {
    forall d | d in zones && d in flagged - busy
      ensures FastZone(d, Recent(db, d, since), zones[d], since) == zones[d]
    {
      assert FastZone(d, map[], zones[d], since).records == zones[d].records;
    }
  }

  /** `by_domain`: the recent records of each flagged domain that has any. */
  ghost predicate Grouped(db: map<Uuid, Record>, flagged: set<string>, since: int, byDomain: map<string, map<Uuid, Record>>) {
    && byDomain.Keys <= flagged
    && (forall d | d in byDomain :: byDomain[d] == Recent(db, d, since))
    && (forall d | d in flagged && d !in byDomain :: Recent(db, d, since) == map[])
  }

  lemma AllGrouped(db: map<Uuid, Record>, since: int)
    ensures forall d ::
      Only(Recent(db, d, since), (set u | u in db && db[u].updatedAt >= since && !IsSoa(db[u].data))) == Recent(db, d, since)
  {
  }

  lemma AddToGroups(db: map<Uuid, Record>, since: int, done: set<Uuid>, u: Uuid)
    requires u in db && u !in done && db[u].updatedAt >= since && !IsSoa(db[u].data)
    ensures forall d | d != db[u].domain :: Only(Recent(db, d, since), done + {u}) == Only(Recent(db, d, since), done)
    ensures var d := db[u].domain;
            Only(Recent(db, d, since), done + {u}) == Only(Recent(db, d, since), done)[u := db[u]]
  {
  }

  // ---- Which cycle runs when ----

  /** The two time stamps of the service: monotonic seconds, and the time of a cycle. */
  datatype Stamps = Stamps(lastFull: int, lastFast: Option<int>)

  const START := Stamps(FULL_SYNC_INTERVAL + 1, None)

  /** One call: monotonic seconds, the time afterwards, and whether any domain is flagged. */
  datatype Attempt = Attempt(now: int, utc: int, anyFlagged: bool)

  datatype Cycle = Full | Fast(since: int) | Nothing

  function CycleAt(c: Stamps, a: Attempt): Cycle {
    if a.now - c.lastFull >= FULL_SYNC_INTERVAL then if a.anyFlagged then Full else Nothing
    else if c.lastFast.Some? then Fast(c.lastFast.value)
    else Nothing
  }

  function ClockAfter(c: Stamps, a: Attempt): Stamps {
    match CycleAt(c, a)
    case Full => Stamps(a.now, Some(a.utc))
    case Fast(_) => c.(lastFast := Some(a.utc))
    case Nothing => c
  }

  function ClockAfterAll(c: Stamps, attempts: seq<Attempt>): Stamps {
    if attempts == [] then c
    else ClockAfter(ClockAfterAll(c, attempts[..|attempts| - 1]), attempts[|attempts| - 1])
  }

  /** The attempt comes late enough after the start of the clock. */
  predicate Due(a: Attempt) {
    a.anyFlagged && a.now >= 121
  }

  /** From the start, whatever the attempts: nothing is synchronised until the first attempt
      with a flagged domain at monotonic second 121 or later, and that one runs a full cycle. */
  lemma {:induction false} FirstCycleIsFullIff(attempts: seq<Attempt>, next: Attempt)
    ensures var c := ClockAfterAll(START, attempts);
            && (c == START <==> forall a | a in attempts :: !Due(a))
            && (c == START || c.lastFast.Some?)
            && (c == START ==> CycleAt(c, next) == if Due(next) then Full else Nothing)
    ensures CycleAt(START, Attempt(120, next.utc, true)) == Nothing
  {
    if attempts != [] {
      var k := |attempts| - 1;
      FirstCycleIsFullIff(attempts[..k], attempts[k]);
      assert attempts == attempts[..k] + [attempts[k]];
    }
  }

  /** The attempt found something to synchronise, or a fast cycle to run. */
  ghost predicate Runs(attempts: seq<Attempt>, k: nat)
    requires k < |attempts|
  {
    CycleAt(ClockAfterAll(START, attempts[..k]), attempts[k]) != Nothing
  }

  ghost predicate RunsFull(attempts: seq<Attempt>, k: nat)
    requires k < |attempts|
  {
    CycleAt(ClockAfterAll(START, attempts[..k]), attempts[k]) == Full
  }

  /** Once there was a full cycle: the next one is due 60 seconds after the last one, when a
      domain is flagged, and before that every attempt runs a fast cycle over what was written
      since the last cycle of either kind. */
  lemma LaterCyclesAre(attempts: seq<Attempt>, full: nat, last: nat, next: Attempt)
    requires full <= last < |attempts| && RunsFull(attempts, full) && Runs(attempts, last)
    requires forall k | full < k < |attempts| :: !RunsFull(attempts, k)
    requires forall k | last < k < |attempts| :: !Runs(attempts, k)
    ensures CycleAt(ClockAfterAll(START, attempts), next) ==
            if next.now < attempts[full].now + 60 then Fast(attempts[last].utc)
            else if next.anyFlagged then Full else Nothing
  {
    LastFullIs(attempts, full);
    LastCycleIs(attempts, last);
  }

  lemma {:induction false} LastFullIs(attempts: seq<Attempt>, k: nat)
    requires k < |attempts| && RunsFull(attempts, k) && forall j | k < j < |attempts| :: !RunsFull(attempts, j)
    ensures ClockAfterAll(START, attempts).lastFull == attempts[k].now
    decreases |attempts|
  {
    var n := |attempts| - 1;
    if k < n {
      forall j | 0 <= j < n
        ensures RunsFull(attempts[..n], j) == RunsFull(attempts, j)
      {
        assert attempts[..n][..j] == attempts[..j];
      }
      LastFullIs(attempts[..n], k);
      assert !RunsFull(attempts, n);
    }
  }

  lemma {:induction false} LastCycleIs(attempts: seq<Attempt>, k: nat)
    requires k < |attempts| && Runs(attempts, k) && forall j | k < j < |attempts| :: !Runs(attempts, j)
    ensures ClockAfterAll(START, attempts).lastFast == Some(attempts[k].utc)
    decreases |attempts|
  {
    var n := |attempts| - 1;
    if k < n {
      forall j | 0 <= j < n
        ensures Runs(attempts[..n], j) == Runs(attempts, j)
      {
        assert attempts[..n][..j] == attempts[..j];
      }
      LastCycleIs(attempts[..n], k);
      assert !Runs(attempts, n);
    }
  }

  class DnsSyncService {
    /** Monotonic seconds; the initial value is meant to force a full cycle at once. */
    var lastFullSyncAt: int
    var lastFastSync: Option<int>

    ghost function Clock(): Stamps
      reads this
    {
      Stamps(lastFullSyncAt, lastFastSync)
    }

    constructor ()
      ensures Clock() == START
    {
      lastFullSyncAt, lastFastSync := FULL_SYNC_INTERVAL + 1, None;
    }

    method FullSyncDomain(domain: string, local: map<Uuid, RecordData>, eco: Ecosystem)
      requires domain in eco.zones
      modifies eco
      ensures eco.zones == old(eco.zones)[domain := FullZone(local, old(eco.zones)[domain])]
      ensures multiset(eco.calls)
           == multiset(old(eco.calls)) + multiset(FullCalls(domain, local, old(eco.zones)[domain]))
    {
      ghost var zones, calls := eco.zones, multiset(eco.calls);
      var z := eco.zones[domain];
      NothingYet(domain, local, z);
      PutBack(zones, domain, z);
      CreateMissing(eco, domain, local, z, zones, calls);
      UpdateChanged(eco, domain, local, z, zones, calls);
      DeleteExtra(eco, domain, local, z, zones, calls);
      AllDone(domain, local, z);
    }

    method CreateMissing(eco: Ecosystem, domain: string, local: map<Uuid, RecordData>, z: Zone,
                         ghost zones: map<string, Zone>, ghost calls: multiset<Call>)
      requires domain in zones && At(eco, zones, calls, domain, local, z, Progress({}, {}, {}))
      modifies eco
      ensures At(eco, zones, calls, domain, local, z, Progress(local.Keys - Visible(z), {}, {}))
    {
      var missing := local.Keys - Visible(z);
      var request := (u: Uuid) => CreateRequest(domain, local, u);
      ghost var zoneAt := (done: set<Uuid>) => PartZone(local, z, Progress(done, {}, {}));
      ghost var sentAt := (done: set<Uuid>) => PartCalls(domain, local, z, Progress(done, {}, {}));
      assert Stepwise(missing, request, domain, zoneAt, sentAt) by {
        CreatingIsStepwise(domain, local, z, request, zoneAt, sentAt);
      }
      assert Reached(eco, zones, calls, domain, zoneAt({}), sentAt({}));
      SendEach(eco, missing, request, zones, calls, domain, zoneAt, sentAt);
    }

    method UpdateChanged(eco: Ecosystem, domain: string, local: map<Uuid, RecordData>, z: Zone,
                         ghost zones: map<string, Zone>, ghost calls: multiset<Call>)
      requires domain in zones && At(eco, zones, calls, domain, local, z, Progress(local.Keys - Visible(z), {}, {}))
      modifies eco
      ensures At(eco, zones, calls, domain, local, z, Progress(local.Keys - Visible(z), local.Keys * Visible(z), {}))
    {
      var request := (u: Uuid) => UpdateRequest(domain, local, z, u);
      ghost var missing := local.Keys - Visible(z);
      ghost var zoneAt := (done: set<Uuid>) => PartZone(local, z, Progress(missing, done, {}));
      ghost var sentAt := (done: set<Uuid>) => PartCalls(domain, local, z, Progress(missing, done, {}));
      assert Stepwise(local.Keys * Visible(z), request, domain, zoneAt, sentAt) by {
        UpdatingIsStepwise(domain, local, z, request, zoneAt, sentAt);
      }
      SendEach(eco, local.Keys * Visible(z), request, zones, calls, domain, zoneAt, sentAt);
    }

    method DeleteExtra(eco: Ecosystem, domain: string, local: map<Uuid, RecordData>, z: Zone,
                       ghost zones: map<string, Zone>, ghost calls: multiset<Call>)
      requires domain in zones
      requires At(eco, zones, calls, domain, local, z, Progress(local.Keys - Visible(z), local.Keys * Visible(z), {}))
      modifies eco
      ensures At(eco, zones, calls, domain, local, z,
                 Progress(local.Keys - Visible(z), local.Keys * Visible(z), Visible(z) - local.Keys))
    {
      var request := (u: Uuid) => Some(Delete(domain, u));
      ghost var missing, common := local.Keys - Visible(z), local.Keys * Visible(z);
      ghost var zoneAt := (done: set<Uuid>) => PartZone(local, z, Progress(missing, common, done));
      ghost var sentAt := (done: set<Uuid>) => PartCalls(domain, local, z, Progress(missing, common, done));
      assert Stepwise(Visible(z) - local.Keys, request, domain, zoneAt, sentAt) by {
        DeletingIsStepwise(domain, local, z, request, zoneAt, sentAt);
      }
      SendEach(eco, Visible(z) - local.Keys, request, zones, calls, domain, zoneAt, sentAt);
    }

    method FastSyncDomain(eco: Ecosystem, domain: string, recent: map<Uuid, Record>, since: int)
      requires domain in eco.zones
      modifies eco
      ensures eco.zones == old(eco.zones)[domain := FastZone(domain, recent, old(eco.zones)[domain], since)]
      ensures multiset(eco.calls) == multiset(old(eco.calls)) + multiset(FastCalls(domain, recent, since))
    {
      ghost var zones, calls, z := eco.zones, multiset(eco.calls), eco.zones[domain];
      var request := (u: Uuid) => FastRequest(domain, recent, since, u);
      ghost var zoneAt := (done: set<Uuid>) => PartFastZone(domain, recent, z, since, done);
      ghost var sentAt := (done: set<Uuid>) => PartFastCalls(domain, recent, since, done);
      assert Stepwise(recent.Keys, request, domain, zoneAt, sentAt) by {
        FastIsStepwise(domain, recent, z, since, request, zoneAt, sentAt);
      }
      FastBounds(domain, recent, z, since);
      PutBack(zones, domain, z);
      SendEach(eco, recent.Keys, request, zones, calls, domain, zoneAt, sentAt);
    }

    /** Recently touched records, grouped by flagged domain; a domain the remote side
        does not know yet waits for the next full cycle. */
    method FastSync(db: map<Uuid, Record>, flagged: set<string>, eco: Ecosystem, since: int)
      modifies eco
      ensures eco.zones == FastZones(db, old(eco.zones), flagged, since)
    {
      ghost var zones := eco.zones;
      var byDomain := GroupRecent(db, flagged, since);
      var todo := byDomain.Keys;
      ghost var done: set<string> := {};
      assert FastZones(db, zones, {}, since) == zones;
      while todo != {}
        invariant todo <= byDomain.Keys && done == byDomain.Keys - todo
        invariant eco.zones == FastZones(db, zones, done, since)
        decreases |todo|
      {
        var d :| d in todo;
        OneMoreFastDomain(db, zones, done, since, d);
        if d in eco.zones {
          FastSyncDomain(eco, d, byDomain[d], since);
        }
        MoveOne(byDomain.Keys, todo, d);
        todo, done := todo - {d}, done + {d};
      }
      assert done == byDomain.Keys;
      QuietDomains(db, zones, flagged, byDomain.Keys, since);
    }

    method GroupRecent(db: map<Uuid, Record>, flagged: set<string>, since: int)
      returns (byDomain: map<string, map<Uuid, Record>>)
      ensures Grouped(db, flagged, since, byDomain)
    {
      byDomain := map[];
      var recent := set u | u in db && db[u].updatedAt >= since && !IsSoa(db[u].data);
      var todo := recent;
      while todo != {}
        invariant todo <= recent
        invariant byDomain.Keys <= flagged
        invariant forall u | u in recent - todo :: db[u].domain in flagged ==> db[u].domain in byDomain
        invariant forall d | d in byDomain :: byDomain[d] == Only(Recent(db, d, since), recent - todo)
        decreases |todo|
      {
        var u :| u in todo;
        var d := db[u].domain;
        MoveOne(recent, todo, u);
        AddToGroups(db, since, recent - todo, u);
        if d in flagged {
          byDomain := byDomain[d := (if d in byDomain then byDomain[d] else map[])[u := db[u]]];
        }
        todo := todo - {u};
      }
      AllGrouped(db, since);
      forall d | d in flagged && d !in byDomain
        ensures Recent(db, d, since) == map[]
      {
        assert forall u | u in Recent(db, d, since) :: u in recent;
      }
    }

    /** Full reconciliation of every flagged domain. */
    method FullSync(db: map<Uuid, Record>, flagged: set<string>, eco: Ecosystem)
      modifies eco
      ensures eco.zones == FullZones(db, old(eco.zones), flagged)
    {
      ghost var zones := eco.zones;
      var todo := flagged;
      ghost var done: set<string> := {};
      assert FullZones(db, zones, {}) == zones;
      while todo != {}
        invariant todo <= flagged && done == flagged - todo
        invariant eco.zones == FullZones(db, zones, done)
        decreases |todo|
      {
        var d :| d in todo;
        OneMoreFullDomain(db, zones, done, d);
        if d !in eco.zones {
          eco.CreateDomain(d);
          PutTwice(FullZones(db, zones, done), d, EMPTY_ZONE, FullZone(Local(db, d), EMPTY_ZONE));
        }
        FullSyncDomain(d, Local(db, d), eco);
        MoveOne(flagged, todo, d);
        todo, done := todo - {d}, done + {d};
      }
      assert done == flagged;
    }

    /** One cycle: a full one when its interval is over, else a fast one if there was a
        cycle before; `now` is monotonic seconds, `utc` the time after the requests. */
    method SyncAllDomains(db: map<Uuid, Record>, flagged: set<string>, eco: Ecosystem, now: int, utc: int)
      modifies this, eco
      ensures Clock() == ClockAfter(old(Clock()), Attempt(now, utc, flagged != {}))
      ensures match CycleAt(old(Clock()), Attempt(now, utc, flagged != {}))
              case Full => eco.zones == FullZones(db, old(eco.zones), flagged)
              case Fast(since) => eco.zones == FastZones(db, old(eco.zones), flagged, since)
              case Nothing => eco.zones == old(eco.zones) && eco.calls == old(eco.calls)
    {
      if now - lastFullSyncAt >= FULL_SYNC_INTERVAL {
        if flagged == {} {
          return;
        }
        FullSync(db, flagged, eco);
        lastFullSyncAt, lastFastSync := now, Some(utc);
      } else if lastFastSync.Some? {
        FastSync(db, flagged, eco, lastFastSync.value);
        lastFastSync := Some(utc);
      }
    }

    /** A loop over a set of identifiers, in any order, sending at most one request for each. */
    method SendEach(eco: Ecosystem, all: set<Uuid>, request: Uuid -> Option<Call>,
                    ghost zones: map<string, Zone>, ghost calls: multiset<Call>, ghost domain: string,
                    ghost zoneAt: set<Uuid> -> Zone, ghost sentAt: set<Uuid> -> set<Call>)
      requires domain in zones && Reached(eco, zones, calls, domain, zoneAt({}), sentAt({}))
      requires Stepwise(all, request, domain, zoneAt, sentAt)
      modifies eco
      ensures Reached(eco, zones, calls, domain, zoneAt(all), sentAt(all))
    {
      var todo := all;
      ghost var done: set<Uuid> := {};
      while todo != {}
        invariant todo <= all && done == all - todo
        invariant Reached(eco, zones, calls, domain, zoneAt(done), sentAt(done))
        decreases |todo|
      {
        var u :| u in todo;
        assert done <= all && u in all - done;
        if request(u).Some? {
          var c := request(u).value;
          OneMoreSent(sentAt(done), c);
          var _ := eco.Request(c);
          PutTwice(zones, domain, zoneAt(done), ZoneAfter(zoneAt(done), c));
        }
        MoveOne(all, todo, u);
        todo, done := todo - {u}, done + {u};
      }
      assert done == all;
    }
  }
}
