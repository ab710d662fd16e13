/** The import phase: the stored imports become the manifest's, and the links stay indexed. */
module ManifestImports {
  import opened Common
  import opened Elements
  import opened Keyed
  import opened Links
  import opened Manifests
  import opened TableSync

  /** The imports of the manifest: from which element, and which resource. */
  function WantedImports(ix: Index, items: seq<ImportItem>): map<string, (Link, Uuid)> {
    if items == [] then map[]
    else
      var k := |items| - 1;
      WantedImports(ix, items[..k])[items[k].name := (items[k].element, SourceOf(ix, items[k]))]
  }

  function SourceOf(ix: Index, item: ImportItem): Uuid {
    if item.link in ix.exports && ix.exports[item.link].Own? then ix.exports[item.link].uuid else 0
  }

  ghost function OtherImports(db: Database, e: Name): map<Uuid, ImportRow> {
    map u | u in db.imports && db.imports[u].owner != e :: db.imports[u]
  }

  /** Rows and links agree, whatever the entries are. */
  ghost predicate Steady(db: Database, ix: Index, e: Name) {
    && Sound(db) && e in db.elements
    && Named(ix.namespaces, db.elements.Keys)
    && Linked(ix.namespaces, Rows(db))
  }

  /** The exported resources exist. */
  ghost predicate SourcesExist(db: Database, ix: Index) {
    forall k | k in ix.exports && ix.exports[k].Own? ::
      ix.exports[k].uuid in db.resources && ix.exports[k].link == db.resources[ix.exports[k].uuid].Link()
  }

  ghost predicate ImportsUnderWay(s: State, p: Progress<string>, e: Name, done: map<string, (Link, Uuid)>) {
    && p.db == s.db.(imports := p.db.imports) && p.ix.exports == s.ix.exports
    && OtherImports(p.db, e) == OtherImports(s.db, e)
    && Synced(ImportTable(s.db, e), ImportTable(p.db, e), p.left, done)
  }

  /** The rows not named yet are as they were stored. */
  ghost predicate LeftStored(db: Database, p: Progress<string>, e: Name) {
    forall n | n in p.left ::
      var u := p.left[n];
      u in db.imports && u in p.db.imports && p.db.imports[u] == db.imports[u] && db.imports[u].owner == e && db.imports[u].name == n
  }

  /** Imports that are stored already keep their source. */
  ghost predicate SameSources(s: State, e: Name, items: seq<ImportItem>) {
    forall item, u | item in items && u in s.db.imports && s.db.imports[u].owner == e && s.db.imports[u].name == item.name ::
      s.db.imports[u].source == SourceOf(s.ix, item)
  }

  lemma PutImport(db: Database, e: Name, u: Uuid, row: ImportRow)
    requires row.owner == e && (u in db.imports ==> db.imports[u].owner == e)
    ensures ImportTable(db.(imports := db.imports[u := row]), e) ==
            ImportTable(db, e)[u := (row.name, (ElementLink(row.fromElement), row.source))]
    ensures OtherImports(db.(imports := db.imports[u := row]), e) == OtherImports(db, e)
  {
  }

  lemma SoundPutImport(db: Database, u: Uuid, row: ImportRow)
    requires Sound(db) && row.owner in db.elements && row.fromElement in db.elements && row.source in db.resources
    requires if u in db.imports then db.imports[u].owner == row.owner && db.imports[u].name == row.name
             else !ImportNamed(db, row.owner, row.name)
    ensures Sound(db.(imports := db.imports[u := row]))
  {
  }

  /** A stored import with another source: same owner, same link. */
  lemma LinkedUpdate(ns: Namespaces, db: Database, u: Uuid, row: ImportRow)
    requires Sound(db) && Linked(ns, Rows(db)) && u in db.imports && row.source in db.resources
    requires db.imports[u].owner == row.owner && db.imports[u].name == row.name
    ensures Linked(ns, Rows(db.(imports := db.imports[u := row])))
  {
    RowsPutImport(db, u, row);
    var rows, i, x := Rows(db), ImportId(u), ImportListed(row, db.resources[row.source].Link());
    assert HasRow(db, i) && rows[i] == ListedAt(db, i);
    LinkedReplaceAll(ns, rows, i, x);
  }

  lemma SameSourceSameRows(db: Database, u: Uuid, row: ImportRow)
    requires u in db.imports && db.imports[u].source == row.source && row.source in db.resources
    requires db.imports[u].owner == row.owner && db.imports[u].name == row.name
    ensures Rows(db.(imports := db.imports[u := row])) == Rows(db)
  {
    RowsPutImport(db, u, row);
    assert HasRow(db, ImportId(u)) && Rows(db)[ImportId(u)] == ListedAt(db, ImportId(u));
    PutBack(Rows(db), ImportId(u), ListedAt(db, ImportId(u)));
  }

  /** A new import, entered under its link. */
  lemma LinkedInsert(ns: Namespaces, db: Database, u: Uuid, row: ImportRow, x: Entry)
    requires Linked(ns, Rows(db)) && ElementLink(row.owner) in ns && u !in db.imports && row.source in db.resources
    requires Lookup(ns, row.owner, ImportLink(row.owner, row.name)).None?
    requires x == Imported(row.source, db.resources[row.source].Link())
    ensures var next, db' := Put(ns, row.owner, ImportLink(row.owner, row.name), x), db.(imports := db.imports[u := row]);
            Linked(next, Rows(db'))
  {
    RowsPutImport(db, u, row);
    var rows, i, y := Rows(db), ImportId(u), ImportListed(row, db.resources[row.source].Link());
    LinkedPutAll(ns, rows, i, y);
  }

  lemma EnteredInsert(ns: Namespaces, db: Database, u: Uuid, row: ImportRow, x: Entry)
    requires Entered(ns, Rows(db)) && ElementLink(row.owner) in ns && u !in db.imports && row.source in db.resources
    requires Lookup(ns, row.owner, ImportLink(row.owner, row.name)).None?
    requires x == Imported(row.source, db.resources[row.source].Link())
    ensures var next, db' := Put(ns, row.owner, ImportLink(row.owner, row.name), x), db.(imports := db.imports[u := row]);
            Entered(next, Rows(db'))
  {
    RowsPutImport(db, u, row);
    EnteredPut(ns, Rows(db), ImportId(u), ImportListed(row, db.resources[row.source].Link()));
  }

  lemma ImportStepSyncs(s: State, p: Progress<string>, e: Name, item: ImportItem, done: map<string, (Link, Uuid)>)
    requires ImportsUnderWay(s, p, e, done) && Named(p.ix.namespaces, p.db.elements.Keys)
    requires ImportStep(p, e, item).Ok?
    ensures ImportsUnderWay(s, ImportStep(p, e, item).value, e, done[item.name := (item.element, SourceOf(p.ix, item))])
  {
    var q, c := ImportStep(p, e, item).value, (item.element, SourceOf(p.ix, item));
    if item.name in p.left {
      var u := p.left[item.name];
      assert u in ImportTable(p.db, e);
      PutImport(p.db, e, u, q.db.imports[u]);
      SyncUpdate(ImportTable(s.db, e), ImportTable(p.db, e), p.left, done, item.name, c);
    } else {
      PutImport(p.db, e, item.uuid, q.db.imports[item.uuid]);
      SyncInsert(ImportTable(s.db, e), ImportTable(p.db, e), p.left, done, item.uuid, item.name, c);
    }
  }

  lemma UpdateSteady(db: Database, ix: Index, e: Name, u: Uuid, row: ImportRow)
    requires Steady(db, ix, e) && u in db.imports && row.fromElement in db.elements && row.source in db.resources
    requires db.imports[u].owner == row.owner && db.imports[u].name == row.name
    ensures Steady(db.(imports := db.imports[u := row]), ix, e)
  {
    SoundPutImport(db, u, row);
    LinkedUpdate(ix.namespaces, db, u, row);
  }

  lemma InsertSteady(db: Database, ix: Index, e: Name, u: Uuid, row: ImportRow, x: Entry)
    requires Steady(db, ix, e) && u !in db.imports && row.owner == e && !ImportNamed(db, e, row.name)
    requires row.fromElement in db.elements && row.source in db.resources
    requires Lookup(ix.namespaces, e, ImportLink(e, row.name)).None?
    requires x == Imported(row.source, db.resources[row.source].Link())
    ensures Steady(db.(imports := db.imports[u := row]), ix.(namespaces := Put(ix.namespaces, e, ImportLink(e, row.name), x)), e)
  {
    assert Sound(db.(imports := db.imports[u := row])) by {
      SoundPutImport(db, u, row);
    }
    LinkedInsert(ix.namespaces, db, u, row, x);
  }

  lemma ImportStepSteady(db: Database, p: Progress<string>, e: Name, item: ImportItem)
    requires Steady(p.db, p.ix, e) && LeftStored(db, p, e) && SourcesExist(p.db, p.ix)
    requires ImportStep(p, e, item).Ok?
    ensures Steady(ImportStep(p, e, item).value.db, ImportStep(p, e, item).value.ix, e)
  {
    var source := p.ix.exports[item.link];
    var row := ImportRow(e, p.ix.namespaces[item.element].element, source.uuid, item.name);
    if item.name in p.left {
      UpdateSteady(p.db, p.ix, e, p.left[item.name], row);
    } else {
      InsertSteady(p.db, p.ix, e, item.uuid, row, Imported(source.uuid, source.link));
    }
  }

  lemma ImportStepStored(db: Database, p: Progress<string>, e: Name, item: ImportItem)
    requires LeftStored(db, p, e) && ImportStep(p, e, item).Ok?
    ensures LeftStored(db, ImportStep(p, e, item).value, e)
  {
  }

  lemma ImportStepEntered(s: State, p: Progress<string>, e: Name, item: ImportItem)
    requires LeftStored(s.db, p, e) && SourcesExist(p.db, p.ix)
    requires Entered(p.ix.namespaces, Rows(p.db)) && p.ix.exports == s.ix.exports && SameSources(s, e, [item])
    requires ImportStep(p, e, item).Ok?
    ensures Entered(ImportStep(p, e, item).value.ix.namespaces, Rows(ImportStep(p, e, item).value.db))
  {
    var source := p.ix.exports[item.link];
    var row := ImportRow(e, p.ix.namespaces[item.element].element, source.uuid, item.name);
    if item.name in p.left {
      SameSourceSameRows(p.db, p.left[item.name], row);
    } else {
      EnteredInsert(p.ix.namespaces, p.db, item.uuid, row, Imported(source.uuid, source.link));
    }
  }

  function ImportStart(s: State, left: map<string, Uuid>): Progress<string> {
    Progress(s.db, s.ix, left)
  }

  ghost predicate ImportsGoing(s: State, p: Progress<string>, e: Name, done: map<string, (Link, Uuid)>) {
    ImportsUnderWay(s, p, e, done) && Steady(p.db, p.ix, e) && LeftStored(s.db, p, e) && SourcesExist(p.db, p.ix)
  }

  lemma ImportStepGoes(s: State, p: Progress<string>, e: Name, item: ImportItem, done: map<string, (Link, Uuid)>)
    requires ImportsGoing(s, p, e, done) && ImportStep(p, e, item).Ok?
    ensures ImportsGoing(s, ImportStep(p, e, item).value, e, done[item.name := (item.element, SourceOf(s.ix, item))])
  {
    ImportStepSyncs(s, p, e, item, done);
    ImportStepSteady(s.db, p, e, item);
    ImportStepStored(s.db, p, e, item);
  }

  lemma {:induction false} ImportStepsKeep(s: State, e: Name, items: seq<ImportItem>)
    requires Steady(s.db, s.ix, e) && SourcesExist(s.db, s.ix)
    requires ImportSteps(ImportStart(s, ByKey(ImportTable(s.db, e))), e, items).Ok?
    ensures var q := ImportSteps(ImportStart(s, ByKey(ImportTable(s.db, e))), e, items).value;
            && ImportsGoing(s, q, e, WantedImports(s.ix, items))
            && (Entered(s.ix.namespaces, Rows(s.db)) && SameSources(s, e, items) ==> Entered(q.ix.namespaces, Rows(q.db)))
  {
    var p := ImportStart(s, ByKey(ImportTable(s.db, e)));
    if items == [] {
      OneImportEach(s.db, e);
      SyncStart(ImportTable(s.db, e));
      ByKeyIsInverse(ImportTable(s.db, e));
    } else {
      var k := |items| - 1;
      ImportStepsKeep(s, e, items[..k]);
      var r := ImportSteps(p, e, items[..k]).value;
      ImportStepGoes(s, r, e, items[k], WantedImports(s.ix, items[..k]));
      if Entered(s.ix.namespaces, Rows(s.db)) && SameSources(s, e, items) {
        assert items[k] in items && forall item | item in items[..k] :: item in items;
        ImportStepEntered(s, r, e, items[k]);
      }
    }
  }

  lemma OneImportEach(db: Database, e: Name)
    requires Sound(db)
    ensures OneEach(ImportTable(db, e))
  {
  }

  // ---- Dropping what is left ----

  lemma DroppedImportTables(db: Database, e: Name, us: set<Uuid>)
    requires forall u | u in us && u in db.imports :: db.imports[u].owner == e
    ensures ImportTable(db.(imports := db.imports - us), e) == ImportTable(db, e) - us
    ensures OtherImports(db.(imports := db.imports - us), e) == OtherImports(db, e)
  {
  }

  lemma SoundDropImports(db: Database, us: set<Uuid>)
    requires Sound(db)
    ensures Sound(db.(imports := db.imports - us))
  {
  }

  lemma DropImportsSteady(db: Database, p: Progress<string>, e: Name)
    requires Steady(p.db, p.ix, e) && LeftStored(db, p, e) && DropImports(p, e).Ok?
    ensures Steady(DropImports(p, e).value.db, DropImports(p, e).value.ix, e)
    ensures Entered(p.ix.namespaces, Rows(p.db)) ==>
              Entered(DropImports(p, e).value.ix.namespaces, Rows(DropImports(p, e).value.db))
  {
    var s := DropImports(p, e).value;
    var gone, ns := ImportIds(p.left.Values), p.ix.namespaces;
    assert Rows(s.db) == Rows(p.db) - gone by {
      RowsDropImports(p.db, p.left.Values);
    }
    assert Sound(s.db) by {
      SoundDropImports(p.db, p.left.Values);
    }
    LeftLinksOf(db, p, e);
    CutRows(ns, Rows(p.db), e, gone, s.ix.namespaces, Rows(s.db));
  }

  lemma CutRows(ns: Namespaces, rows: Catalogue, e: Name, gone: set<RowId>, next: Namespaces, rows': Catalogue)
    requires ElementLink(e) in ns && Linked(ns, rows)
    requires forall i | i in gone :: i in rows && rows[i].owner == e
    requires next == Cut(ns, e, LinksOf(rows, gone)) && rows' == rows - gone
    ensures Linked(next, rows') && (Entered(ns, rows) ==> Entered(next, rows'))
  {
    LinkedCutAll(ns, rows, e, gone);
    if Entered(ns, rows) {
      assert LinkedAt(ns, rows, e);
      EnteredCut(ns, rows, e, gone);
    }
  }

  lemma LeftLinksOf(db: Database, p: Progress<string>, e: Name)
    requires Steady(p.db, p.ix, e) && LeftStored(db, p, e)
    ensures forall i | i in ImportIds(p.left.Values) :: i in Rows(p.db) && Rows(p.db)[i].owner == e
    ensures (set n | n in p.left :: ImportLink(e, n)) == LinksOf(Rows(p.db), ImportIds(p.left.Values))
  {
    var rows, gone := Rows(p.db), ImportIds(p.left.Values);
    forall i | i in gone
      ensures i in rows && rows[i].owner == e
      ensures exists n :: n in p.left && rows[i].link == ImportLink(e, n)
    {
      var n :| n in p.left && p.left[n] == i.uuid;
      assert HasRow(p.db, i) && rows[i] == ListedAt(p.db, i);
    }
    forall n | n in p.left
      ensures ImportLink(e, n) in LinksOf(rows, gone)
    {
      var i := ImportId(p.left[n]);
      assert p.left[n] in p.left.Values && HasRow(p.db, i) && rows[i] == ListedAt(p.db, i);
    }
  }

  /** The import phase: the element's imports are the manifest's, those stored already keep
      their identifiers, nobody else's imports change, and every namespace still has the
      links of its rows. Entries stay right as long as no stored import changes its source. */
  lemma ImportPhase(s: State, e: Name, items: seq<ImportItem>)
    requires Steady(s.db, s.ix, e) && SourcesExist(s.db, s.ix)
    requires ImportsApplied(s, e, items).Ok?
    ensures var s', wanted := ImportsApplied(s, e, items).value, WantedImports(s.ix, items);
            && Steady(s'.db, s'.ix, e) && SourcesExist(s'.db, s'.ix)
            && s'.db == s.db.(imports := s'.db.imports) && s'.ix.exports == s.ix.exports
            && OtherImports(s'.db, e) == OtherImports(s.db, e)
            && Realises(ImportTable(s'.db, e), wanted)
            && Kept(ImportTable(s.db, e), ImportTable(s'.db, e), wanted)
            && (Entered(s.ix.namespaces, Rows(s.db)) && SameSources(s, e, items) ==> Entered(s'.ix.namespaces, Rows(s'.db)))
  {
    ImportStepsKeep(s, e, items);
    var q := ImportSteps(ImportStart(s, ByKey(ImportTable(s.db, e))), e, items).value;
    DropImportsSteady(s.db, q, e);
    DroppedImportTables(q.db, e, q.left.Values);
    SyncDrop(ImportTable(s.db, e), ImportTable(q.db, e), q.left, WantedImports(s.ix, items));
  }

  // ---- What becomes of a namespace's links ----

  lemma {:induction false} ImportStepsGrow(p: Progress<string>, e: Name, items: seq<ImportItem>)
    requires ImportSteps(p, e, items).Ok?
    ensures Grows(p.ix.namespaces, ImportSteps(p, e, items).value.ix.namespaces)
  {
    if items != [] {
      var item := items[|items| - 1];
      ImportStepsGrow(p, e, items[..|items| - 1]);
      var r := ImportSteps(p, e, items[..|items| - 1]).value;
      if item.name !in r.left {
        var source := r.ix.exports[item.link];
        AddEntryGrows(r.ix, e, ImportLink(e, item.name), Imported(source.uuid, source.link));
        GrowsOn(p.ix.namespaces, r.ix.namespaces, ImportStep(r, e, item).value.ix.namespaces);
      }
    }
  }

  /** A stored import that the manifest does not name. */
  ghost predicate Unnamed(db: Database, e: Name, wanted: map<string, (Link, Uuid)>, n: string) {
    n !in wanted && ImportNamed(db, e, n)
  }

  lemma LeftIsUnnamed(s: State, p: Progress<string>, e: Name, wanted: map<string, (Link, Uuid)>)
    requires ImportsUnderWay(s, p, e, wanted) && LeftStored(s.db, p, e)
    ensures forall n :: n in p.left <==> Unnamed(s.db, e, wanted, n)
  {
    var before, rows := ImportTable(s.db, e), ImportTable(p.db, e);
    forall n | Unnamed(s.db, e, wanted, n)
      ensures n in p.left
    {
      var u :| u in s.db.imports && s.db.imports[u].owner == e && s.db.imports[u].name == n;
      assert u in before && u in rows && rows[u].0 == n;
    }
  }

  lemma UnnamedAreLeft(s: State, e: Name, items: seq<ImportItem>)
    requires Steady(s.db, s.ix, e) && SourcesExist(s.db, s.ix)
    requires ImportSteps(ImportStart(s, ByKey(ImportTable(s.db, e))), e, items).Ok?
    ensures var q := ImportSteps(ImportStart(s, ByKey(ImportTable(s.db, e))), e, items).value;
            forall n :: n in q.left <==> Unnamed(s.db, e, WantedImports(s.ix, items), n)
  {
    ImportStepsKeep(s, e, items);
    LeftIsUnnamed(s, ImportSteps(ImportStart(s, ByKey(ImportTable(s.db, e))), e, items).value, e, WantedImports(s.ix, items));
  }

  lemma DropImportsCuts(p: Progress<string>, e: Name, k: Link)
    requires DropImports(p, e).Ok?
    ensures Lookup(DropImports(p, e).value.ix.namespaces, e, k) ==
            if exists n :: n in p.left && ImportLink(e, n) == k then None else Lookup(p.ix.namespaces, e, k)
  {
    LookupCut(p.ix.namespaces, e, set n | n in p.left :: ImportLink(e, n));
  }

  /** Links of an element's namespace through the import phase: exactly those of the imports
      the manifest no longer names are taken out. */
  lemma ImportPhaseCuts(s: State, e: Name, items: seq<ImportItem>, k: Link)
    requires Steady(s.db, s.ix, e) && SourcesExist(s.db, s.ix)
    requires ImportsApplied(s, e, items).Ok? && Lookup(s.ix.namespaces, e, k).Some?
    ensures var s', wanted := ImportsApplied(s, e, items).value, WantedImports(s.ix, items);
            Lookup(s'.ix.namespaces, e, k) ==
            if exists n :: Unnamed(s.db, e, wanted, n) && ImportLink(e, n) == k then None else Lookup(s.ix.namespaces, e, k)
  {
    var p := ImportStart(s, ByKey(ImportTable(s.db, e)));
    UnnamedAreLeft(s, e, items);
    ImportStepsGrow(p, e, items);
    DropImportsCuts(ImportSteps(p, e, items).value, e, k);
  }

  /** What the manifest asks for is there for each of its imports. */
  ghost predicate AllWanted(ix: Index, items: seq<ImportItem>) {
    forall item | item in items ::
      item.name in WantedImports(ix, items) && WantedImports(ix, items)[item.name] == (item.element, SourceOf(ix, item))
  }

  lemma AllWantedAppend(ix: Index, items: seq<ImportItem>)
    requires items != [] && AllWanted(ix, items[..|items| - 1])
    requires items[|items| - 1].name !in WantedImports(ix, items[..|items| - 1])
    ensures AllWanted(ix, items)
  {
    assert items == items[..|items| - 1] + [items[|items| - 1]];
  }

  /** No manifest names an import twice: the second one would be refused. */
  lemma {:induction false} NamedOnce(s: State, e: Name, items: seq<ImportItem>)
    requires Steady(s.db, s.ix, e) && SourcesExist(s.db, s.ix)
    requires ImportSteps(ImportStart(s, ByKey(ImportTable(s.db, e))), e, items).Ok?
    ensures AllWanted(s.ix, items)
  {
    if items != [] {
      NamedOnce(s, e, items[..|items| - 1]);
      LastIsUnnamed(s, e, items);
      AllWantedAppend(s.ix, items);
    }
  }

  lemma LastIsUnnamed(s: State, e: Name, items: seq<ImportItem>)
    requires Steady(s.db, s.ix, e) && SourcesExist(s.db, s.ix) && items != []
    requires ImportSteps(ImportStart(s, ByKey(ImportTable(s.db, e))), e, items).Ok?
    ensures items[|items| - 1].name !in WantedImports(s.ix, items[..|items| - 1])
  {
    var k := |items| - 1;
    ImportStepsKeep(s, e, items[..k]);
    var r := ImportSteps(ImportStart(s, ByKey(ImportTable(s.db, e))), e, items[..k]).value;
    StepIsUnnamed(s, r, e, items[k], WantedImports(s.ix, items[..k]));
  }

  lemma StepIsUnnamed(s: State, p: Progress<string>, e: Name, item: ImportItem, done: map<string, (Link, Uuid)>)
    requires ImportsUnderWay(s, p, e, done) && ImportStep(p, e, item).Ok?
    ensures item.name !in done
  {
    var rows := ImportTable(p.db, e);
    assert item.name in done ==> HasKey(rows, item.name);
  }
}
