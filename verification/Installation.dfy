/**
 Installing and upgrading: what is stored afterwards, and whether the engine's index,
 updated step by step, is the one a reload would build.
 */
module Installation {
  import opened Common
  import Documents
  import opened Elements
  import opened ExportIndex
  import opened Links
  import opened ManifestExports
  import opened ManifestImports
  import opened ManifestResources
  import opened Manifests
  import opened TableSync

  // ---- Other elements' namespaces ----

  ghost predicate Elsewhere(ns: Namespaces, next: Namespaces, e: Name) {
    forall n, k | n != e :: Lookup(next, n, k) == Lookup(ns, n, k)
  }

  /** What an element's namespace gains are resources of its own. */
  ghost predicate OwnAdded(ns: Namespaces, next: Namespaces, e: Name) {
    forall k | Lookup(next, e, k).Some? :: Lookup(next, e, k) == Lookup(ns, e, k) || Lookup(next, e, k).value.Own?
  }

  lemma AddEntryElsewhere(ix: Index, e: Name, k: Link, x: Entry)
    requires AddEntry(ix, e, k, x).Ok?
    ensures Elsewhere(ix.namespaces, AddEntry(ix, e, k, x).value.namespaces, e)
  {
    LookupPut(ix.namespaces, e, k, x);
  }

  lemma {:induction false} ImportStepsElsewhere(p: Progress<string>, e: Name, items: seq<ImportItem>)
    requires ImportSteps(p, e, items).Ok?
    ensures Elsewhere(p.ix.namespaces, ImportSteps(p, e, items).value.ix.namespaces, e)
  {
    if items != [] {
      var item := items[|items| - 1];
      ImportStepsElsewhere(p, e, items[..|items| - 1]);
      var r := ImportSteps(p, e, items[..|items| - 1]).value;
      if item.name !in r.left {
        var source := r.ix.exports[item.link];
        AddEntryElsewhere(r.ix, e, ImportLink(e, item.name), Imported(source.uuid, source.link));
      }
    }
  }

  lemma {:induction false} ResourceStepsElsewhere(p: Progress<Key>, e: Name, prefix: Link, items: seq<ResourceItem>)
    requires ResourceSteps(p, e, prefix, items).Ok?
    ensures Elsewhere(p.ix.namespaces, ResourceSteps(p, e, prefix, items).value.ix.namespaces, e)
    ensures OwnAdded(p.ix.namespaces, ResourceSteps(p, e, prefix, items).value.ix.namespaces, e)
  {
    if items != [] {
      var item := items[|items| - 1];
      ResourceStepsElsewhere(p, e, prefix, items[..|items| - 1]);
      var r := ResourceSteps(p, e, prefix, items[..|items| - 1]).value;
      if (prefix, item.name) !in r.left {
        AddEntryElsewhere(r.ix, e, ResourceLink(prefix, item.name), Own(item.uuid, ResourceLink(prefix, item.name)));
        LookupPut(r.ix.namespaces, e, ResourceLink(prefix, item.name), Own(item.uuid, ResourceLink(prefix, item.name)));
      }
    }
  }

  lemma {:induction false} GroupStepsElsewhere(p: Progress<Key>, e: Name, groups: seq<Group>)
    requires GroupSteps(p, e, groups).Ok?
    ensures Elsewhere(p.ix.namespaces, GroupSteps(p, e, groups).value.ix.namespaces, e)
    ensures OwnAdded(p.ix.namespaces, GroupSteps(p, e, groups).value.ix.namespaces, e)
  {
    if groups != [] {
      var k := |groups| - 1;
      GroupStepsElsewhere(p, e, groups[..k]);
      var r := GroupSteps(p, e, groups[..k]).value;
      ResourceStepsElsewhere(r, e, Resolve(r.ix, e, groups[k].prefix).value, groups[k].items);
    }
  }

  lemma CutElsewhere(ns: Namespaces, e: Name, ks: set<Link>)
    requires ElementLink(e) in ns
    ensures Elsewhere(ns, Cut(ns, e, ks), e)
  {
    LookupCut(ns, e, ks);
  }

  lemma PhasesElsewhere(s: State, e: Name, imports: seq<ImportItem>, groups: seq<Group>)
    requires ImportsApplied(s, e, imports).Ok? && ResourcesApplied(ImportsApplied(s, e, imports).value, e, groups).Ok?
    ensures Elsewhere(s.ix.namespaces, ResourcesApplied(ImportsApplied(s, e, imports).value, e, groups).value.ix.namespaces, e)
  {
    var p := ImportStart(s, ByKey(ImportTable(s.db, e)));
    ImportStepsElsewhere(p, e, imports);
    var q, a := ImportSteps(p, e, imports).value, ImportsApplied(s, e, imports).value;
    CutElsewhere(q.ix.namespaces, e, set n | n in q.left :: ImportLink(e, n));
    GroupStepsElsewhere(ResourceStart(a, e), e, groups);
    var r := GroupSteps(ResourceStart(a, e), e, groups).value;
    CutElsewhere(r.ix.namespaces, e, set k | k in r.left :: ResourceLink(k.0, k.1));
  }

  // ---- The phases of one application ----

  ghost function AfterImports(s: State, m: Manifest): State
    requires Applied(s, m).Ok?
  {
    ImportsApplied(s, m.name, m.imports).value
  }

  ghost function AfterResources(s: State, m: Manifest): State
    requires Applied(s, m).Ok?
  {
    ResourcesApplied(AfterImports(s, m), m.name, m.groups).value
  }

  /** The stored resources the manifest no longer names. */
  ghost function Removed(s: State, m: Manifest): set<Uuid>
    requires Applied(s, m).Ok?
  {
    Dropped(s.db, m.name, RequestedResources(AfterImports(s, m), m.name, m.groups))
  }

  /** A row's entry is indexed under its link, which no other row of the element has. */
  lemma RowEntry(ns: Namespaces, db: Database, i: RowId)
    requires Filed(ns, db) && HasRow(db, i)
    ensures Lookup(ns, ListedAt(db, i).owner, ListedAt(db, i).link) == Some(ListedAt(db, i).entry)
    ensures forall j | HasRow(db, j) && ListedAt(db, j).owner == ListedAt(db, i).owner
                       && ListedAt(db, j).link == ListedAt(db, i).link :: j == i
  {
    var rows := Rows(db);
    assert LinkedAt(ns, rows, rows[i].owner);
    assert Lookup(ns, rows[i].owner, rows[i].link) == Some(rows[i].entry);
    forall j | HasRow(db, j) && ListedAt(db, j).owner == ListedAt(db, i).owner && ListedAt(db, j).link == ListedAt(db, i).link
      ensures j == i
    {
      assert j in rows && rows[j] == ListedAt(db, j);
    }
  }

  /** One row of the element is behind each of its exports. */
  lemma ExportTarget(s: State, u: Uuid) returns (i: RowId)
    requires Indexes(s.ix, s.db) && u in s.db.exports
    ensures var row := s.db.exports[u];
            && HasRow(s.db, i) && ListedAt(s.db, i).owner == row.owner && ListedAt(s.db, i).link == ClearParameters(row.link)
            && row.link in s.ix.exports && s.ix.exports[row.link] == ListedAt(s.db, i).entry
  {
    var row, rows := s.db.exports[u], Rows(s.db);
    assert ExportedAt(s.ix.namespaces, s.ix.exports, row);
    assert LinkedAt(s.ix.namespaces, rows, row.owner);
    i :| i in rows && rows[i].owner == row.owner && rows[i].link == ClearParameters(row.link);
    RowEntry(s.ix.namespaces, s.db, i);
  }

  lemma IndexesAreSteady(s: State, e: Name)
    requires Sound(s.db) && Indexes(s.ix, s.db) && e in s.db.elements
    ensures Steady(s.db, s.ix, e) && SourcesExist(s.db, s.ix)
  {
    forall k | k in s.ix.exports && s.ix.exports[k].Own?
      ensures s.ix.exports[k].uuid in s.db.resources
      ensures s.ix.exports[k].link == s.db.resources[s.ix.exports[k].uuid].Link()
    {
      var u :| u in s.db.exports && s.db.exports[u].link == k;
      var i := ExportTarget(s, u);
    }
  }

  lemma PhasesAreSteady(s: State, m: Manifest)
    requires Sound(s.db) && Indexes(s.ix, s.db) && m.name in s.db.elements && Applied(s, m).Ok?
    ensures Steady(AfterImports(s, m).db, AfterImports(s, m).ix, m.name)
    ensures AfterImports(s, m).db == s.db.(imports := AfterImports(s, m).db.imports)
    ensures AfterImports(s, m).ix.exports == s.ix.exports
    ensures Sound(AfterResources(s, m).db) && AfterResources(s, m).db.elements == s.db.elements
  {
    IndexesAreSteady(s, m.name);
    ImportPhase(s, m.name, m.imports);
    ResourcePhaseKeeps(AfterImports(s, m), m.name, m.groups);
  }

  lemma AppliedSound(s: State, m: Manifest)
    requires Sound(s.db) && Indexes(s.ix, s.db) && m.name in s.db.elements && Applied(s, m).Ok?
    ensures Sound(Applied(s, m).value.db)
  {
    PhasesAreSteady(s, m);
    ExportPhase(AfterResources(s, m), m.name, m.exports);
  }

  // ---- What is stored ----

  /** After a manifest is applied, the element's resources are the manifest's, and those
      stored before under the same key keep their identifiers. */
  lemma AppliedResources(s: State, m: Manifest)
    requires Sound(s.db) && Indexes(s.ix, s.db) && m.name in s.db.elements && Applied(s, m).Ok?
    ensures var s', e := Applied(s, m).value, m.name;
            var wanted := RequestedResources(AfterImports(s, m), e, m.groups);
            && Realises(ResourceTable(s'.db, e), wanted)
            && Kept(ResourceTable(s.db, e), ResourceTable(s'.db, e), wanted)
            && OtherResources(s'.db, e) == OtherResources(s.db, e)
  {
    var e, a, b := m.name, AfterImports(s, m), AfterResources(s, m);
    assert Steady(a.db, a.ix, e) && a.db.resources == s.db.resources by {
      PhasesAreSteady(s, m);
    }
    ResourcePhase(a, e, m.groups);
    assert Applied(s, m).value.db.resources == b.db.resources by {
      PhasesAreSteady(s, m);
      ExportPhase(b, e, m.exports);
    }
    SameResources(s.db, a.db, e);
    SameResources(b.db, Applied(s, m).value.db, e);
  }

  lemma SameResources(db: Database, next: Database, e: Name)
    requires next.resources == db.resources
    ensures ResourceTable(next, e) == ResourceTable(db, e) && OtherResources(next, e) == OtherResources(db, e)
  {
  }

  /** ... its exports are the manifest's ... */
  lemma AppliedExports(s: State, m: Manifest)
    requires Sound(s.db) && Indexes(s.ix, s.db) && m.name in s.db.elements && Applied(s, m).Ok?
    ensures var s', e := Applied(s, m).value, m.name;
            && Realises(ExportTable(s'.db, e), WantedExports(m.exports))
            && Kept(ExportTable(s.db, e), ExportTable(s'.db, e), WantedExports(m.exports))
            && OtherExports(s'.db, e) == OtherExports(s.db, e)
  {
    var e, b := m.name, AfterResources(s, m);
    assert Sound(b.db) && e in b.db.elements && b.db.exports == s.db.exports by {
      PhasesAreSteady(s, m);
      ResourcePhaseKeeps(AfterImports(s, m), e, m.groups);
    }
    ExportPhase(b, e, m.exports);
    SameExports(s.db, b.db, e);
  }

  lemma SameExports(db: Database, next: Database, e: Name)
    requires next.exports == db.exports
    ensures ExportTable(next, e) == ExportTable(db, e) && OtherExports(next, e) == OtherExports(db, e)
  {
  }

  /** ... and its imports are the manifest's, but for those whose source the manifest drops;
      of the other elements' imports, too, those are all that is lost. */
  lemma AppliedImports(s: State, m: Manifest)
    requires Sound(s.db) && Indexes(s.ix, s.db) && m.name in s.db.elements && Applied(s, m).Ok?
    ensures var s', a, e := Applied(s, m).value, AfterImports(s, m), m.name;
            && s'.db.imports == a.db.imports - Sourced(a.db, Removed(s, m))
            && OtherImports(a.db, e) == OtherImports(s.db, e)
            && Realises(ImportTable(a.db, e), WantedImports(s.ix, m.imports))
            && Kept(ImportTable(s.db, e), ImportTable(a.db, e), WantedImports(s.ix, m.imports))
  {
    assert Applied(s, m).value.db.imports == AfterResources(s, m).db.imports by {
      PhasesAreSteady(s, m);
      ExportPhase(AfterResources(s, m), m.name, m.exports);
    }
    ImportsAfterResources(s, m);
    AfterImportsTables(s, m);
  }

  lemma AfterImportsTables(s: State, m: Manifest)
    requires Sound(s.db) && Indexes(s.ix, s.db) && m.name in s.db.elements && Applied(s, m).Ok?
    ensures var a, e := AfterImports(s, m), m.name;
            && OtherImports(a.db, e) == OtherImports(s.db, e)
            && Realises(ImportTable(a.db, e), WantedImports(s.ix, m.imports))
            && Kept(ImportTable(s.db, e), ImportTable(a.db, e), WantedImports(s.ix, m.imports))
  {
    IndexesAreSteady(s, m.name);
    ImportPhase(s, m.name, m.imports);
  }

  lemma ImportsAfterResources(s: State, m: Manifest)
    requires Sound(s.db) && Indexes(s.ix, s.db) && m.name in s.db.elements && Applied(s, m).Ok?
    ensures AfterResources(s, m).db.imports == AfterImports(s, m).db.imports - Sourced(AfterImports(s, m).db, Removed(s, m))
  {
    var e, a := m.name, AfterImports(s, m);
    PhasesAreSteady(s, m);
    ResourcePhaseKeeps(a, e, m.groups);
    SameDropped(s.db, a.db, e, RequestedResources(a, e, m.groups));
  }

  lemma SameDropped(db: Database, next: Database, e: Name, wanted: map<Key, Documents.Document>)
    requires next.resources == db.resources
    ensures Dropped(next, e, wanted) == Dropped(db, e, wanted)
  {
  }

  // ---- Whether the index follows ----

  /** Applying the manifest makes an import of element `n` lose its source: a resource of
      the manifest's own element that it drops. */
  ghost predicate LosesSource(s: State, m: Manifest, n: Name)
    requires Applied(s, m).Ok?
  {
    if n == m.name then exists k | k in WantedImports(s.ix, m.imports) :: WantedImports(s.ix, m.imports)[k].1 in Removed(s, m)
    else ImportsFrom(s.db, n, Removed(s, m))
  }

  lemma LosesSourceMeaning(s: State, m: Manifest, n: Name)
    requires Sound(s.db) && Indexes(s.ix, s.db) && m.name in s.db.elements && Applied(s, m).Ok?
    ensures ImportsFrom(AfterImports(s, m).db, n, Removed(s, m)) <==> LosesSource(s, m, n)
  {
    AppliedImports(s, m);
    if n == m.name {
      OwnSources(AfterImports(s, m).db, n, WantedImports(s.ix, m.imports), Removed(s, m));
    } else {
      OtherSources(s.db, AfterImports(s, m).db, m.name, n, Removed(s, m));
    }
  }

  lemma OwnSources(db: Database, e: Name, wanted: map<string, (Link, Uuid)>, us: set<Uuid>)
    requires Realises(ImportTable(db, e), wanted)
    ensures ImportsFrom(db, e, us) <==> exists k | k in wanted :: wanted[k].1 in us
  {
    var rows := ImportTable(db, e);
    if u :| u in db.imports && db.imports[u].owner == e && db.imports[u].source in us {
      assert u in rows && wanted[rows[u].0].1 in us;
    }
    if k :| k in wanted && wanted[k].1 in us {
      assert HasKey(rows, k);
      var u :| u in rows && rows[u].0 == k;
      assert db.imports[u].source in us;
    }
  }

  lemma OtherSources(db: Database, next: Database, e: Name, n: Name, us: set<Uuid>)
    requires n != e && OtherImports(next, e) == OtherImports(db, e)
    ensures ImportsFrom(next, n, us) <==> ImportsFrom(db, n, us)
  {
    var rows := OtherImports(db, e);
    if u :| u in next.imports && next.imports[u].owner == n && next.imports[u].source in us {
      assert u in OtherImports(next, e) && rows[u] == next.imports[u] && db.imports[u] == rows[u];
    }
    if u :| u in db.imports && db.imports[u].owner == n && db.imports[u].source in us {
      assert u in rows && OtherImports(next, e)[u] == db.imports[u] && next.imports[u] == db.imports[u];
    }
  }

  /** After an error-free application, an element's namespace has exactly the links of the
      element's stored imports and resources if and only if none of its imports came from a
      resource the manifest drops. */
  lemma LinksFollowIff(s: State, m: Manifest, n: Name)
    requires Sound(s.db) && Indexes(s.ix, s.db) && m.name in s.db.elements && Applied(s, m).Ok?
    ensures var s' := Applied(s, m).value;
            LinkedAt(s'.ix.namespaces, Rows(s'.db), n) <==> !LosesSource(s, m, n)
  {
    var e, a, b := m.name, AfterImports(s, m), AfterResources(s, m);
    PhasesAreSteady(s, m);
    ResourcePhaseLinks(a, e, m.groups, n);
    SameDropped(s.db, a.db, e, RequestedResources(a, e, m.groups));
    LosesSourceMeaning(s, m, n);
    ExportPhase(b, e, m.exports);
    RowsIgnoreExports(b.db, Applied(s, m).value.db);
  }

  lemma RowsIgnoreExports(db: Database, next: Database)
    requires next == db.(exports := next.exports)
    ensures Rows(next) == Rows(db)
  {
    forall i
      ensures i in Rows(db) <==> HasRow(next, i)
      ensures HasRow(next, i) ==> Rows(db)[i] == ListedAt(next, i)
    {
      match i
      case ImportId(_) =>
      case ResourceId(_) =>
    }
    RowsAre(next, Rows(db));
  }

  // ---- Entries ----

  /** The manifest still names this stored import or resource of its element. */
  ghost predicate Remains(s: State, m: Manifest, i: RowId)
    requires Applied(s, m).Ok? && HasRow(s.db, i)
  {
    match i
    case ImportId(u) => s.db.imports[u].name in WantedImports(s.ix, m.imports)
    case ResourceId(u) => u !in Removed(s, m)
  }

  lemma AfterImportsEntry(s: State, m: Manifest, i: RowId)
    requires Sound(s.db) && Indexes(s.ix, s.db) && m.name in s.db.elements && Applied(s, m).Ok?
    requires HasRow(s.db, i) && ListedAt(s.db, i).owner == m.name
    ensures var x := ListedAt(s.db, i);
            Lookup(AfterImports(s, m).ix.namespaces, m.name, x.link) ==
            if i.ImportId? && !Remains(s, m, i) then None else Some(x.entry)
  {
    var x := ListedAt(s.db, i);
    RowEntry(s.ix.namespaces, s.db, i);
    assert Steady(s.db, s.ix, m.name) && SourcesExist(s.db, s.ix) by {
      IndexesAreSteady(s, m.name);
    }
    ImportPhaseCuts(s, m.name, m.imports, x.link);
    UnnamedLinks(s, m, i);
  }

  lemma UnnamedLinks(s: State, m: Manifest, i: RowId)
    requires Sound(s.db) && Indexes(s.ix, s.db) && Applied(s, m).Ok?
    requires HasRow(s.db, i) && ListedAt(s.db, i).owner == m.name
    ensures (exists n :: Unnamed(s.db, m.name, WantedImports(s.ix, m.imports), n) && ImportLink(m.name, n) == ListedAt(s.db, i).link) <==>
            i.ImportId? && !Remains(s, m, i)
  {
    var e, x, wanted := m.name, ListedAt(s.db, i), WantedImports(s.ix, m.imports);
    RowEntry(s.ix.namespaces, s.db, i);
    forall n | Unnamed(s.db, e, wanted, n) && ImportLink(e, n) == x.link
      ensures i.ImportId? && s.db.imports[i.uuid].name == n
    {
      var u :| u in s.db.imports && s.db.imports[u].owner == e && s.db.imports[u].name == n;
      assert HasRow(s.db, ImportId(u)) && ListedAt(s.db, ImportId(u)).link == x.link;
    }
    if i.ImportId? && !Remains(s, m, i) {
      assert Unnamed(s.db, e, wanted, s.db.imports[i.uuid].name);
    }
  }

  /** Only the resource itself has its link. */
  lemma LinkAmong(ns: Namespaces, db: Database, us: set<Uuid>, i: RowId)
    requires Filed(ns, db) && HasRow(db, i)
    requires forall u | u in us :: u in db.resources && db.resources[u].owner == ListedAt(db, i).owner
    ensures (exists u | u in us :: db.resources[u].Link() == ListedAt(db, i).link) <==> i.ResourceId? && i.uuid in us
  {
    RowEntry(ns, db, i);
    forall u | u in us && db.resources[u].Link() == ListedAt(db, i).link
      ensures i == ResourceId(u)
    {
      assert HasRow(db, ResourceId(u));
    }
  }

  /** Before the export phase, a stored row's entry is still indexed exactly when the
      manifest still names the row. */
  lemma EntryStaysIff(s: State, m: Manifest, i: RowId)
    requires Sound(s.db) && Indexes(s.ix, s.db) && m.name in s.db.elements && Applied(s, m).Ok?
    requires HasRow(s.db, i) && ListedAt(s.db, i).owner == m.name
    ensures var x := ListedAt(s.db, i);
            Lookup(AfterResources(s, m).ix.namespaces, m.name, x.link) == Some(x.entry) <==> Remains(s, m, i)
  {
    var e, a, b, x := m.name, AfterImports(s, m), AfterResources(s, m), ListedAt(s.db, i);
    PhasesAreSteady(s, m);
    AfterImportsEntry(s, m, i);
    if i.ImportId? && !Remains(s, m, i) {
      NoImportAdded(a, e, m.groups, x.link);
    } else {
      ResourcePhaseCuts(a, e, m.groups, x.link);
      SameDropped(s.db, a.db, e, RequestedResources(a, e, m.groups));
      LinkAmong(s.ix.namespaces, s.db, Removed(s, m), i);
    }
  }

  lemma NoImportAdded(s: State, e: Name, groups: seq<Group>, k: Link)
    requires ResourcesApplied(s, e, groups).Ok? && Lookup(s.ix.namespaces, e, k).None?
    ensures var x := Lookup(ResourcesApplied(s, e, groups).value.ix.namespaces, e, k); x.Some? ==> x.value.Own?
  {
    var q := GroupSteps(ResourceStart(s, e), e, groups).value;
    GroupStepsElsewhere(ResourceStart(s, e), e, groups);
    LookupCut(q.ix.namespaces, e, set j | j in q.left :: ResourceLink(j.0, j.1));
  }

  // ---- When the namespaces follow ----

  lemma FiledAfterResources(s: State, m: Manifest)
    requires Sound(s.db) && Indexes(s.ix, s.db) && m.name in s.db.elements && Applied(s, m).Ok?
    requires SameSources(s, m.name, m.imports) && forall n :: !LosesSource(s, m, n)
    ensures Filed(AfterResources(s, m).ix.namespaces, AfterResources(s, m).db)
  {
    var e, a, b := m.name, AfterImports(s, m), AfterResources(s, m);
    PhasesAreSteady(s, m);
    SameDropped(s.db, a.db, e, RequestedResources(a, e, m.groups));
    forall n
      ensures LinkedAt(b.ix.namespaces, Rows(b.db), n)
    {
      ResourcePhaseLinks(a, e, m.groups, n);
      LosesSourceMeaning(s, m, n);
    }
    assert Entered(a.ix.namespaces, Rows(a.db)) by {
      IndexesAreSteady(s, e);
      ImportPhase(s, e, m.imports);
    }
    ResourcePhaseKeeps(a, e, m.groups);
  }

  /** A stored import whose source changes keeps its row and its old entry. */
  lemma ChangedSourceIsStale(s: State, m: Manifest, item: ImportItem, u: Uuid)
    requires Sound(s.db) && Indexes(s.ix, s.db) && m.name in s.db.elements && Applied(s, m).Ok?
    requires !LosesSource(s, m, m.name)
    requires item in m.imports && u in s.db.imports && s.db.imports[u].owner == m.name && s.db.imports[u].name == item.name
    requires s.db.imports[u].source != SourceOf(s.ix, item)
    ensures !Entered(AfterResources(s, m).ix.namespaces, Rows(AfterResources(s, m).db))
  {
    var e, b, i := m.name, AfterResources(s, m), ImportId(u);
    assert item.name in WantedImports(s.ix, m.imports) && WantedImports(s.ix, m.imports)[item.name].1 == SourceOf(s.ix, item) by {
      IndexesAreSteady(s, e);
      NamedOnce(s, e, m.imports);
    }
    assert HasRow(s.db, i);
    EntryStaysIff(s, m, i);
    KeptSource(s, m, u);
    assert Sound(b.db) by {
      PhasesAreSteady(s, m);
    }
    assert HasRow(b.db, i) && Rows(b.db)[i] == ListedAt(b.db, i);
  }

  lemma KeptImport(db: Database, next: Database, e: Name, wanted: map<string, (Link, Uuid)>, u: Uuid)
    requires Realises(ImportTable(next, e), wanted) && Kept(ImportTable(db, e), ImportTable(next, e), wanted)
    requires u in db.imports && db.imports[u].owner == e && db.imports[u].name in wanted
    ensures u in next.imports && next.imports[u].owner == e && next.imports[u].name == db.imports[u].name
    ensures next.imports[u].source == wanted[db.imports[u].name].1
  {
    var before, rows := ImportTable(db, e), ImportTable(next, e);
    assert u in before && u in rows && rows[u].0 == before[u].0;
  }

  /** A stored import that the manifest names has its row and the manifest's source, unless
      the source is dropped. */
  lemma KeptSource(s: State, m: Manifest, u: Uuid)
    requires Sound(s.db) && Indexes(s.ix, s.db) && m.name in s.db.elements && Applied(s, m).Ok?
    requires !LosesSource(s, m, m.name)
    requires u in s.db.imports && s.db.imports[u].owner == m.name && s.db.imports[u].name in WantedImports(s.ix, m.imports)
    ensures var b := AfterResources(s, m);
            && u in b.db.imports && b.db.imports[u].owner == m.name && b.db.imports[u].name == s.db.imports[u].name
            && b.db.imports[u].source == WantedImports(s.ix, m.imports)[s.db.imports[u].name].1
  {
    var e, a, b, wanted := m.name, AfterImports(s, m), AfterResources(s, m), WantedImports(s.ix, m.imports);
    assert u in a.db.imports && a.db.imports[u].owner == e && a.db.imports[u].name == s.db.imports[u].name
           && a.db.imports[u].source == wanted[s.db.imports[u].name].1 by {
      AppliedImports(s, m);
      KeptImport(s.db, a.db, e, wanted, u);
    }
    assert b.db.imports == a.db.imports - Sourced(a.db, Removed(s, m)) by {
      ImportsAfterResources(s, m);
    }
    assert wanted[s.db.imports[u].name].1 !in Removed(s, m);
  }

  /** After an error-free application the namespaces agree with the rows if and only if no
      stored import changed its source and no import of any element lost it. */
  lemma NamespacesFollowIff(s: State, m: Manifest)
    requires Sound(s.db) && Indexes(s.ix, s.db) && m.name in s.db.elements && Applied(s, m).Ok?
    ensures var s' := Applied(s, m).value;
            Filed(s'.ix.namespaces, s'.db) <==> SameSources(s, m.name, m.imports) && forall n :: !LosesSource(s, m, n)
  {
    var e, b, s' := m.name, AfterResources(s, m), Applied(s, m).value;
    assert Rows(s'.db) == Rows(b.db) && s'.ix.namespaces == b.ix.namespaces && s'.db.elements == b.db.elements by {
      PhasesAreSteady(s, m);
      ExportPhase(b, e, m.exports);
      RowsIgnoreExports(b.db, s'.db);
    }
    if SameSources(s, e, m.imports) && forall n :: !LosesSource(s, m, n) {
      FiledAfterResources(s, m);
    }
    if Filed(s'.ix.namespaces, s'.db) {
      forall n
        ensures !LosesSource(s, m, n)
      {
        assert LinkedAt(s'.ix.namespaces, Rows(s'.db), n);
        LinksFollowIff(s, m, n);
      }
      EnteredKeepsSources(s, m);
    }
  }

  lemma EnteredKeepsSources(s: State, m: Manifest)
    requires Sound(s.db) && Indexes(s.ix, s.db) && m.name in s.db.elements && Applied(s, m).Ok?
    requires !LosesSource(s, m, m.name) && Entered(AfterResources(s, m).ix.namespaces, Rows(AfterResources(s, m).db))
    ensures SameSources(s, m.name, m.imports)
  {
    forall item, u | item in m.imports && u in s.db.imports && s.db.imports[u].owner == m.name && s.db.imports[u].name == item.name
      ensures s.db.imports[u].source == SourceOf(s.ix, item)
    {
      if s.db.imports[u].source != SourceOf(s.ix, item) {
        ChangedSourceIsStale(s, m, item, u);
      }
    }
  }

  // ---- When the export index follows ----

  /** The exports that stay have the same links as before, and the manifest still names the
      resource or import each of these links leads to. */
  ghost predicate ExportsFollow(s: State, m: Manifest)
    requires Applied(s, m).Ok?
  {
    var e, wanted := m.name, WantedExports(m.exports);
    && LinksNow(s.db, e, wanted).Values == LinksBefore(s.db, e, wanted).Values
    && (forall u | u in KeptRows(s.db, e, wanted) :: TargetRemains(s, m, s.db.exports[u].link))
  }

  ghost predicate TargetRemains(s: State, m: Manifest, k: Link)
    requires Applied(s, m).Ok?
  {
    forall i | HasRow(s.db, i) && ListedAt(s.db, i).owner == m.name && ListedAt(s.db, i).link == ClearParameters(k) :: Remains(s, m, i)
  }

  lemma SameTables(s: State, m: Manifest)
    requires Sound(s.db) && Indexes(s.ix, s.db) && m.name in s.db.elements && Applied(s, m).Ok?
    ensures AfterResources(s, m).db.exports == s.db.exports && AfterResources(s, m).ix.exports == s.ix.exports
  {
    PhasesAreSteady(s, m);
    ResourcePhaseKeeps(AfterImports(s, m), m.name, m.groups);
  }

  lemma ServingAfterResources(s: State, m: Manifest)
    requires Sound(s.db) && Indexes(s.ix, s.db) && m.name in s.db.elements && Applied(s, m).Ok?
    ensures Serving(AfterResources(s, m).db, AfterResources(s, m).ix, m.name)
  {
    SameTables(s, m);
    PhasesElsewhere(s, m.name, m.imports, m.groups);
    ServingElsewhere(s, AfterResources(s, m), m.name);
  }

  lemma ServingElsewhere(s: State, b: State, e: Name)
    requires Exported(s.ix.namespaces, s.ix.exports, s.db.exports)
    requires b.db.exports == s.db.exports && b.ix.exports == s.ix.exports
    requires Elsewhere(s.ix.namespaces, b.ix.namespaces, e)
    ensures Serving(b.db, b.ix, e)
  {
    forall u | u in b.db.exports
      ensures b.db.exports[u].link in b.ix.exports
      ensures b.db.exports[u].owner != e ==> ExportedAt(b.ix.namespaces, b.ix.exports, b.db.exports[u])
    {
      assert ExportedAt(s.ix.namespaces, s.ix.exports, s.db.exports[u]);
    }
    forall k | k in b.ix.exports
      ensures LinkStored(b.db, k)
    {
      var u :| u in s.db.exports && s.db.exports[u].link == k;
    }
  }

  lemma TargetIndexedIff(s: State, m: Manifest, u: Uuid)
    requires Sound(s.db) && Indexes(s.ix, s.db) && m.name in s.db.elements && Applied(s, m).Ok?
    requires u in s.db.exports && s.db.exports[u].owner == m.name
    ensures ExportedAt(AfterResources(s, m).ix.namespaces, s.ix.exports, s.db.exports[u]) <==> TargetRemains(s, m, s.db.exports[u].link)
  {
    var i := ExportTarget(s, u);
    EntryStaysIff(s, m, i);
    RowEntry(s.ix.namespaces, s.db, i);
  }

  /** After an error-free application the export index agrees with the rows if and only if
      the exports that stay keep their links, in any order, and what these lead to. */
  lemma ExportsFollowIff(s: State, m: Manifest)
    requires Sound(s.db) && Indexes(s.ix, s.db) && m.name in s.db.elements && Applied(s, m).Ok?
    ensures var s' := Applied(s, m).value;
            Exported(s'.ix.namespaces, s'.ix.exports, s'.db.exports) <==> ExportsFollow(s, m)
  {
    var e, b, wanted := m.name, AfterResources(s, m), WantedExports(m.exports);
    assert Sound(b.db) && e in b.db.elements by {
      PhasesAreSteady(s, m);
    }
    ServingAfterResources(s, m);
    ExportedIff(b, e, m.exports);
    LinksStayIff(s, m);
  }

  lemma LinksStayIff(s: State, m: Manifest)
    requires Sound(s.db) && Indexes(s.ix, s.db) && m.name in s.db.elements && Applied(s, m).Ok?
    ensures LinksStay(AfterResources(s, m), m.name, WantedExports(m.exports)) <==> ExportsFollow(s, m)
  {
    var e, b, wanted := m.name, AfterResources(s, m), WantedExports(m.exports);
    SameTables(s, m);
    SameKept(s.db, b.db, e, wanted);
    forall u | u in KeptRows(s.db, e, wanted)
      ensures ExportedAt(b.ix.namespaces, b.ix.exports, b.db.exports[u]) <==> TargetRemains(s, m, s.db.exports[u].link)
    {
      TargetIndexedIff(s, m, u);
    }
  }

  lemma SameKept(db: Database, next: Database, e: Name, wanted: map<string, Link>)
    requires next.exports == db.exports
    ensures KeptRows(next, e, wanted) == KeptRows(db, e, wanted)
    ensures LinksNow(next, e, wanted) == LinksNow(db, e, wanted) && LinksBefore(next, e, wanted) == LinksBefore(db, e, wanted)
  {
  }

  /** An error-free application leaves engine and database in agreement if and only if stored
      imports keep their sources, no import loses its source, and the exports that stay keep
      their links and what these lead to. */
  lemma AppliedAgreesIff(s: State, m: Manifest)
    requires Sound(s.db) && Indexes(s.ix, s.db) && m.name in s.db.elements && Applied(s, m).Ok?
    ensures Sound(Applied(s, m).value.db)
    ensures Indexes(Applied(s, m).value.ix, Applied(s, m).value.db) <==>
            SameSources(s, m.name, m.imports) && (forall n :: !LosesSource(s, m, n)) && ExportsFollow(s, m)
  {
    AppliedSound(s, m);
    NamespacesFollowIff(s, m);
    ExportsFollowIff(s, m);
  }

  // ---- Installing ----

  ghost function WithElement(s: State, m: Manifest): State {
    State(s.db.(elements := s.db.elements[m.name := m.uuid]),
          s.ix.(namespaces := s.ix.namespaces[ElementLink(m.name) := Namespace(m.name, map[])]))
  }

  lemma NewNamespace(ns: Namespaces, e: Name)
    requires ElementLink(e) !in ns
    ensures forall n, k :: Lookup(ns[ElementLink(e) := Namespace(e, map[])], n, k) == Lookup(ns, n, k)
  {
  }

  lemma RowsIgnoreElements(db: Database, next: Database)
    requires next == db.(elements := next.elements)
    ensures Rows(next) == Rows(db)
  {
    forall i
      ensures i in Rows(db) <==> HasRow(next, i)
      ensures HasRow(next, i) ==> Rows(db)[i] == ListedAt(next, i)
    {
      match i
      case ImportId(_) =>
      case ResourceId(_) =>
    }
    RowsAre(next, Rows(db));
  }

  lemma NewElementIndexed(s: State, m: Manifest)
    requires Sound(s.db) && Indexes(s.ix, s.db) && m.name !in s.db.elements && ElementLink(m.name) !in s.ix.namespaces
    ensures Sound(WithElement(s, m).db) && Indexes(WithElement(s, m).ix, WithElement(s, m).db)
  {
    var t := WithElement(s, m);
    var ns, next, rows := s.ix.namespaces, t.ix.namespaces, Rows(s.db);
    RowsIgnoreElements(s.db, t.db);
    NewNamespace(ns, m.name);
    forall n
      ensures LinkedAt(next, rows, n)
    {
      assert LinkedAt(ns, rows, n);
    }
    ExportedGrows(ns, next, s.ix.exports, s.db.exports);
  }

  lemma NothingStored(s: State, m: Manifest)
    requires Sound(s.db) && m.name !in s.db.elements
    requires Applied(WithElement(s, m), m).Ok?
    ensures SameSources(WithElement(s, m), m.name, m.imports)
    ensures forall n :: !LosesSource(WithElement(s, m), m, n)
    ensures ExportsFollow(WithElement(s, m), m)
  {
    NothingOwned(s.db, m.name);
    assert Removed(WithElement(s, m), m) == {};
    assert KeptRows(WithElement(s, m).db, m.name, WantedExports(m.exports)) == {};
    NothingKept(WithElement(s, m), m);
  }

  lemma NothingKept(s: State, m: Manifest)
    requires Applied(s, m).Ok? && KeptRows(s.db, m.name, WantedExports(m.exports)) == {}
    ensures ExportsFollow(s, m)
  {
    var wanted := WantedExports(m.exports);
    assert LinksNow(s.db, m.name, wanted) == map[] && LinksBefore(s.db, m.name, wanted) == map[];
  }

  lemma NothingOwned(db: Database, e: Name)
    requires Sound(db) && e !in db.elements
    ensures forall u | u in db.imports :: db.imports[u].owner != e
    ensures forall u | u in db.resources :: db.resources[u].owner != e
    ensures forall u | u in db.exports :: db.exports[u].owner != e
  {
  }

  /** A successful installation leaves the engine with exactly the index that a reload from
      the resulting database would build. */
  lemma InstallAgreesWithReload(s: State, m: Manifest)
    requires Sound(s.db) && Indexes(s.ix, s.db) && Installed(s, m).Ok?
    ensures var s' := Installed(s, m).value;
            && Sound(s'.db) && Indexes(s'.ix, s'.db) && Loadable(s'.db)
            && forall ix :: Indexes(ix, s'.db) ==> ix == s'.ix
  {
    var s' := Installed(s, m).value;
    NewElementIndexed(s, m);
    NothingStored(s, m);
    AppliedAgreesIff(WithElement(s, m), m);
    IndexedIsLoadable(s'.ix, s'.db);
    forall ix | Indexes(ix, s'.db)
      ensures ix == s'.ix
    {
      IndexUnique(ix, s'.ix, s'.db);
    }
  }

  // ---- An upgrade that the index does not follow ----

  lemma EmptyImportsApply(s: State, e: Name)
    requires Steady(s.db, s.ix, e)
    ensures ImportsApplied(s, e, []).Ok?
  {
    var table, rows := ImportTable(s.db, e), Rows(s.db);
    OneImportEach(s.db, e);
    ByKeyIsInverse(table);
    assert LinkedAt(s.ix.namespaces, rows, e);
    forall n | n in ByKey(table)
      ensures Lookup(s.ix.namespaces, e, ImportLink(e, n)).Some?
    {
      var i := ImportId(ByKey(table)[n]);
      assert HasRow(s.db, i) && rows[i] == ListedAt(s.db, i);
    }
  }

  lemma EmptyResourcesApply(s: State, e: Name)
    requires Steady(s.db, s.ix, e)
    requires forall u | u in s.db.resources && s.db.resources[u].owner == e :: Provider(s.db.resources[u].prefix) in s.ix.namespaces
    ensures ResourcesApplied(s, e, []).Ok?
  {
    var table, rows := ResourceTable(s.db, e), Rows(s.db);
    OneResourceEach(s, e);
    ByKeyIsInverse(table);
    assert LinkedAt(s.ix.namespaces, rows, e);
    forall k | k in ByKey(table)
      ensures Lookup(s.ix.namespaces, e, ResourceLink(k.0, k.1)).Some? && Provider(k.0) in s.ix.namespaces
    {
      var u := ByKey(table)[k];
      assert u in table && s.db.resources[u].prefix == k.0;
      assert HasRow(s.db, ResourceId(u)) && rows[ResourceId(u)] == ListedAt(s.db, ResourceId(u));
    }
  }

  lemma EmptyExportsApply(s: State, e: Name)
    requires Sound(s.db) && Serving(s.db, s.ix, e)
    ensures ExportsApplied(s, e, []).Ok?
  {
    OneExportEach(s.db, e);
    ByKeyIsInverse(ExportTable(s.db, e));
    assert LeftLinks(ExportStart(s, e)) <= s.ix.exports.Keys;
  }

  lemma SameNamespaceKeys(a: Namespaces, b: Namespaces, elements: set<Name>)
    requires Named(a, elements) && Named(b, elements)
    ensures forall l :: l in a <==> l in b
  {
  }

  lemma EmptyManifestApplies(s: State, m: Manifest)
    requires Sound(s.db) && Indexes(s.ix, s.db) && m.name in s.db.elements
    requires m.imports == [] && m.groups == [] && m.exports == []
    requires forall u | u in s.db.resources && s.db.resources[u].owner == m.name :: Provider(s.db.resources[u].prefix) in s.ix.namespaces
    ensures Applied(s, m).Ok?
  {
    var e := m.name;
    IndexesAreSteady(s, e);
    EmptyImportsApply(s, e);
    var a := ImportsApplied(s, e, []).value;
    ImportPhase(s, e, []);
    SameNamespaceKeys(s.ix.namespaces, a.ix.namespaces, s.db.elements.Keys);
    EmptyResourcesApply(a, e);
    var b := ResourcesApplied(a, e, []).value;
    assert Sound(b.db) && Serving(b.db, b.ix, e) by {
      ResourcePhaseKeeps(a, e, []);
      PhasesElsewhere(s, e, [], []);
      ServingElsewhere(s, b, e);
    }
    EmptyExportsApply(b, e);
  }

  /** Upgrading to a manifest that asks for nothing succeeds, and every other element that
      imported from the upgraded one keeps an indexed import without a row. */
  lemma EmptyUpgradeStrandsImporters(s: State, m: Manifest, n: Name)
    requires Sound(s.db) && Indexes(s.ix, s.db) && m.name in s.db.elements
    requires m.imports == [] && m.groups == [] && m.exports == []
    requires forall u | u in s.db.resources && s.db.resources[u].owner == m.name :: Provider(s.db.resources[u].prefix) in s.ix.namespaces
    requires n != m.name && exists u :: u in s.db.imports && s.db.imports[u].owner == n && ImportedFrom(s.db, u, m.name)
    ensures Upgraded(s, m).Ok?
    ensures var s' := Upgraded(s, m).value;
            !LinkedAt(s'.ix.namespaces, Rows(s'.db), n)
  {
    EmptyManifestApplies(s, m);
    assert RequestedResources(AfterImports(s, m), m.name, []) == map[];
    var u :| u in s.db.imports && s.db.imports[u].owner == n && ImportedFrom(s.db, u, m.name);
    assert s.db.imports[u].source in Removed(s, m);
    LinksFollowIff(s, m, n);
  }

  /** This import's source belongs to the element. */
  ghost predicate ImportedFrom(db: Database, u: Uuid, e: Name)
    requires u in db.imports
  {
    db.imports[u].source in db.resources && db.resources[db.imports[u].source].owner == e
  }
}
