/** The export phase: the stored exports become the manifest's. */
module ManifestExports {
  import opened Common
  import opened Elements
  import opened Links
  import opened Manifests
  import opened TableSync

  function WantedExports(items: seq<ExportItem>): map<string, Link> {
    if items == [] then map[]
    else
      var k := |items| - 1;
      WantedExports(items[..k])[items[k].name := items[k].link]
  }

  ghost function OtherExports(db: Database, e: Name): map<Uuid, ExportRow> {
    map u | u in db.exports && db.exports[u].owner != e :: db.exports[u]
  }

  ghost predicate ExportsUnderWay(s: State, p: Progress<string>, e: Name, done: map<string, Link>) {
    && p.db == s.db.(exports := p.db.exports) && p.ix.namespaces == s.ix.namespaces
    && Sound(p.db) && e in p.db.elements
    && OtherExports(p.db, e) == OtherExports(s.db, e)
    && Synced(ExportTable(s.db, e), ExportTable(p.db, e), p.left, done)
  }

  ghost predicate LeftExports(db: Database, p: Progress<string>, e: Name) {
    forall n | n in p.left ::
      var u := p.left[n];
      u in db.exports && u in p.db.exports && p.db.exports[u] == db.exports[u] && db.exports[u].owner == e && db.exports[u].name == n
  }

  lemma PutExport(db: Database, e: Name, u: Uuid, row: ExportRow)
    requires row.owner == e && (u in db.exports ==> db.exports[u].owner == e)
    ensures ExportTable(db.(exports := db.exports[u := row]), e) == ExportTable(db, e)[u := (row.name, row.link)]
    ensures OtherExports(db.(exports := db.exports[u := row]), e) == OtherExports(db, e)
  {
  }

  lemma SoundPutExport(db: Database, u: Uuid, row: ExportRow)
    requires Sound(db) && row.owner in db.elements
    requires if u in db.exports then db.exports[u].owner == row.owner && db.exports[u].name == row.name
             else !ExportNamed(db, row.owner, row.name)
    ensures Sound(db.(exports := db.exports[u := row]))
  {
  }

  lemma ExportStepSyncs(s: State, p: Progress<string>, e: Name, item: ExportItem, done: map<string, Link>)
    requires ExportsUnderWay(s, p, e, done) && ExportStep(p, e, item).Ok?
    ensures ExportsUnderWay(s, ExportStep(p, e, item).value, e, done[item.name := item.link])
  {
    var row := ExportRow(e, item.name, item.link);
    if item.name in p.left {
      var u := p.left[item.name];
      assert u in ExportTable(p.db, e);
      PutExport(p.db, e, u, row);
      SoundPutExport(p.db, u, row);
      SyncUpdate(ExportTable(s.db, e), ExportTable(p.db, e), p.left, done, item.name, item.link);
    } else {
      PutExport(p.db, e, item.uuid, row);
      SoundPutExport(p.db, item.uuid, row);
      SyncInsert(ExportTable(s.db, e), ExportTable(p.db, e), p.left, done, item.uuid, item.name, item.link);
    }
  }

  lemma ExportStepStored(db: Database, p: Progress<string>, e: Name, item: ExportItem)
    requires LeftExports(db, p, e) && ExportStep(p, e, item).Ok?
    ensures LeftExports(db, ExportStep(p, e, item).value, e)
  {
  }

  ghost function ExportStart(s: State, e: Name): Progress<string> {
    Progress(s.db, s.ix, ByKey(ExportTable(s.db, e)))
  }

  lemma OneExportEach(db: Database, e: Name)
    requires Sound(db)
    ensures OneEach(ExportTable(db, e))
  {
  }

  lemma {:induction false} ExportStepsKeep(s: State, e: Name, items: seq<ExportItem>)
    requires Sound(s.db) && e in s.db.elements && ExportSteps(ExportStart(s, e), e, items).Ok?
    ensures var q := ExportSteps(ExportStart(s, e), e, items).value;
            ExportsUnderWay(s, q, e, WantedExports(items)) && LeftExports(s.db, q, e)
  {
    if items == [] {
      OneExportEach(s.db, e);
      SyncStart(ExportTable(s.db, e));
      ByKeyIsInverse(ExportTable(s.db, e));
    } else {
      var k := |items| - 1;
      ExportStepsKeep(s, e, items[..k]);
      var r := ExportSteps(ExportStart(s, e), e, items[..k]).value;
      ExportStepSyncs(s, r, e, items[k], WantedExports(items[..k]));
      ExportStepStored(s.db, r, e, items[k]);
    }
  }

  lemma DroppedExportTables(db: Database, e: Name, us: set<Uuid>)
    requires Sound(db) && forall u | u in us && u in db.exports :: db.exports[u].owner == e
    ensures var next := db.(exports := db.exports - us);
            && ExportTable(next, e) == ExportTable(db, e) - us
            && OtherExports(next, e) == OtherExports(db, e) && Sound(next)
  {
  }

  /** The export phase: the element's exports are the manifest's, those stored already keep
      their identifiers, nobody else's exports change. */
  lemma ExportPhase(s: State, e: Name, items: seq<ExportItem>)
    requires Sound(s.db) && e in s.db.elements && ExportsApplied(s, e, items).Ok?
    ensures var s', wanted := ExportsApplied(s, e, items).value, WantedExports(items);
            && Sound(s'.db) && s'.db == s.db.(exports := s'.db.exports) && s'.ix.namespaces == s.ix.namespaces
            && OtherExports(s'.db, e) == OtherExports(s.db, e)
            && Realises(ExportTable(s'.db, e), wanted)
            && Kept(ExportTable(s.db, e), ExportTable(s'.db, e), wanted)
  {
    ExportStepsKeep(s, e, items);
    var q := ExportSteps(ExportStart(s, e), e, items).value;
    DroppedExportTables(q.db, e, q.left.Values);
    SyncDrop(ExportTable(s.db, e), ExportTable(q.db, e), q.left, WantedExports(items));
  }
}
