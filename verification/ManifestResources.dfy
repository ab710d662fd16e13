/** The resource phase: the stored resources become the manifest's. */
module ManifestResources {
  import opened Common
  import opened Documents
  import opened Elements
  import opened Keyed
  import opened Links
  import opened ManifestImports
  import opened Manifests
  import opened TableSync

  // ---- What the manifest asks for ----

  function WantedItems(done: map<Key, Document>, prefix: Link, items: seq<ResourceItem>): map<Key, Document> {
    if items == [] then done
    else
      var k := |items| - 1;
      WantedItems(done, prefix, items[..k])[(prefix, items[k].name) := items[k].value]
  }

  /** The manifest's resources, their prefixes resolved through an index. */
  function WantedResources(ix: Index, e: Name, groups: seq<Group>): map<Key, Document> {
    if groups == [] then map[]
    else
      var k := |groups| - 1;
      var prefix := Resolve(ix, e, groups[k].prefix);
      var done := WantedResources(ix, e, groups[..k]);
      if prefix.None? then done else WantedItems(done, prefix.value, groups[k].items)
  }

  ghost predicate AllResolve(ix: Index, e: Name, groups: seq<Group>) {
    forall g | g in groups :: Resolve(ix, e, g.prefix).Some?
  }

  lemma ResolveStable(ix: Index, next: Index, e: Name, prefix: Link)
    requires Grows(ix.namespaces, next.namespaces) && Resolve(ix, e, prefix).Some?
    ensures Resolve(next, e, prefix) == Resolve(ix, e, prefix)
  {
  }

  lemma {:induction false} WantedStable(ix: Index, next: Index, e: Name, groups: seq<Group>)
    requires Grows(ix.namespaces, next.namespaces) && AllResolve(ix, e, groups)
    ensures AllResolve(next, e, groups) && WantedResources(next, e, groups) == WantedResources(ix, e, groups)
  {
    forall g | g in groups
      ensures Resolve(next, e, g.prefix) == Resolve(ix, e, g.prefix)
    {
      ResolveStable(ix, next, e, g.prefix);
    }
    if groups != [] {
      var k := |groups| - 1;
      assert groups[k] in groups && forall g | g in groups[..k] :: g in groups;
      WantedStable(ix, next, e, groups[..k]);
    }
  }

  /** The element's own resources are indexed under their links. */
  ghost predicate OwnLinks(ns: Namespaces, e: Name) {
    forall k | Lookup(ns, e, k).Some? && Lookup(ns, e, k).value.Own? :: Lookup(ns, e, k).value.link == k
  }

  lemma EntriesHaveLinks(s: State, e: Name)
    requires Steady(s.db, s.ix, e) && Entered(s.ix.namespaces, Rows(s.db))
    ensures OwnLinks(s.ix.namespaces, e)
  {
    var rows := Rows(s.db);
    assert LinkedAt(s.ix.namespaces, rows, e);
    forall k | Lookup(s.ix.namespaces, e, k).Some? && Lookup(s.ix.namespaces, e, k).value.Own?
      ensures Lookup(s.ix.namespaces, e, k).value.link == k
    {
      var i :| i in rows && rows[i].owner == e && rows[i].link == k;
      assert rows[i] == ListedAt(s.db, i);
    }
  }

  lemma DottedIff(parts: seq<string>, k: nat)
    requires k < |parts| && forall p | p in parts :: '.' !in p && ':' !in p
    ensures '.' in Join(parts[..k + 1], '.') <==> k > 0
    ensures ':' !in Join(parts[..k + 1], '.')
  {
    JoinWithout(parts[..k + 1], '.', ':');
    if k == 0 {
      assert parts[..1] == [parts[0]];
    } else {
      assert Join(parts[..k + 1], '.') == parts[0] + ['.'] + Join(parts[..k + 1][1..], '.');
    }
  }

  lemma ResolveCases(ix: Index, e: Name, full: Link, parts: seq<string>, k: nat)
    requires OwnLinks(ix.namespaces, e) && (forall l | l in ix.namespaces :: l == ElementLink(ix.namespaces[l].element))
    requires PartsOf(full, parts) && CutsAt(parts, k)
    ensures var link := Join(parts[..k + 1], '.');
            && link <= full
            && Resolve(ix, e, full) ==
               if k == 0 then if link in ix.namespaces then Some(full) else None
               else match Lookup(ix.namespaces, e, link)
                    case None => None
                    case Some(Own(_, _)) => Some(full)
                    case Some(Imported(_, origin)) => Some(origin + full[|link|..])
  {
    var link := Join(parts[..k + 1], '.');
    ExtractMeaning(full, parts);
    DottedIff(parts, k);
    NothingToClear(link);
    assert link + full[|link|..] == full;
  }

  /** A prefix is looked up by its resource link. A link of an element alone stays as it is,
      and so does one through an own resource; one through an import becomes the link of the
      imported resource itself, followed by the rest; any other is refused. */
  lemma ResolveMeaning(s: State, e: Name, full: Link, parts: seq<string>, k: nat)
    requires Steady(s.db, s.ix, e) && Entered(s.ix.namespaces, Rows(s.db))
    requires PartsOf(full, parts) && CutsAt(parts, k)
    ensures var link := Join(parts[..k + 1], '.');
            && link <= full
            && (forall u | u in s.db.imports && s.db.imports[u].owner == e && ImportLink(e, s.db.imports[u].name) == link ::
                  Resolve(s.ix, e, full) == Some(s.db.resources[s.db.imports[u].source].Link() + full[|link|..]))
            && (forall u | u in s.db.resources && s.db.resources[u].owner == e && s.db.resources[u].Link() == link ::
                  Resolve(s.ix, e, full) == Some(full))
            && (k == 0 ==>
                  Resolve(s.ix, e, full) == if exists n :: n in s.db.elements && ElementLink(n) == link then Some(full) else None)
            && (k > 0 ==> (Resolve(s.ix, e, full).Some? <==> Lists(Rows(s.db), e, link)))
  {
    var link, rows := Join(parts[..k + 1], '.'), Rows(s.db);
    EntriesHaveLinks(s, e);
    ResolveCases(s.ix, e, full, parts, k);
    DottedIff(parts, k);
    assert LinkedAt(s.ix.namespaces, rows, e);
    forall u | u in s.db.imports && s.db.imports[u].owner == e && ImportLink(e, s.db.imports[u].name) == link
      ensures Resolve(s.ix, e, full) == Some(s.db.resources[s.db.imports[u].source].Link() + full[|link|..])
    {
      ImportLinkDotted(e, s.db.imports[u].name);
      assert HasRow(s.db, ImportId(u)) && rows[ImportId(u)] == ListedAt(s.db, ImportId(u));
    }
    forall u | u in s.db.resources && s.db.resources[u].owner == e && s.db.resources[u].Link() == link
      ensures Resolve(s.ix, e, full) == Some(full)
    {
      ResourceLinkDotted(s.db.resources[u].prefix, s.db.resources[u].name);
      assert HasRow(s.db, ResourceId(u)) && rows[ResourceId(u)] == ListedAt(s.db, ResourceId(u));
    }
  }

  /** The element a resource's kind is looked up in is the one its prefix begins with. */
  lemma ProviderIsFirst(n: Name, rest: string)
    requires '.' !in n
    ensures Provider(ElementLink(n)) == ElementLink(n) && Provider(ElementLink(n) + "." + rest) == ElementLink(n)
  {
    SplitNothing(ElementLink(n), '.');
    var tail := "." + rest;
    assert ElementLink(n) + "." + rest == ElementLink(n) + tail && tail[1..] == rest;
    SplitPart(ElementLink(n), tail, '.');
    assert ElementLink(n) + "" == ElementLink(n);
  }

  lemma ImportLinkDotted(e: Name, name: string)
    ensures '.' in ImportLink(e, name)
  {
    assert ImportLink(e, name)[|ElementLink(e)|] == '.';
  }

  lemma ResourceLinkDotted(prefix: Link, name: string)
    ensures '.' in ResourceLink(prefix, name)
  {
    assert ResourceLink(prefix, name)[|prefix|] == '.';
  }

  // ---- Steps ----

  ghost function OtherResources(db: Database, e: Name): map<Uuid, ResourceRow> {
    map u | u in db.resources && db.resources[u].owner != e :: db.resources[u]
  }

  ghost predicate ResourcesUnderWay(s: State, p: Progress<Key>, e: Name, done: map<Key, Document>) {
    && p.db == s.db.(resources := p.db.resources) && p.ix.exports == s.ix.exports
    && OtherResources(p.db, e) == OtherResources(s.db, e)
    && Synced(ResourceTable(s.db, e), ResourceTable(p.db, e), p.left, done)
  }

  ghost predicate LeftOwned(db: Database, left: map<Key, Uuid>, e: Name) {
    forall k | k in left ::
      left[k] in db.resources && db.resources[left[k]].owner == e && (db.resources[left[k]].prefix, db.resources[left[k]].name) == k
  }

  lemma PutResource(db: Database, e: Name, u: Uuid, row: ResourceRow)
    requires row.owner == e && (u in db.resources ==> db.resources[u].owner == e)
    ensures ResourceTable(db.(resources := db.resources[u := row]), e) ==
            ResourceTable(db, e)[u := ((row.prefix, row.name), row.value)]
    ensures OtherResources(db.(resources := db.resources[u := row]), e) == OtherResources(db, e)
  {
  }

  /** A key whose link is free is not stored. */
  lemma FreshKey(ns: Namespaces, db: Database, e: Name, k: Key)
    requires Linked(ns, Rows(db)) && Lookup(ns, e, ResourceLink(k.0, k.1)).None?
    ensures forall v | v in ResourceTable(db, e) :: ResourceTable(db, e)[v].0 != k
  {
    assert LinkedAt(ns, Rows(db), e);
    forall v | v in ResourceTable(db, e)
      ensures ResourceTable(db, e)[v].0 != k
    {
      assert HasRow(db, ResourceId(v)) && Rows(db)[ResourceId(v)] == ListedAt(db, ResourceId(v));
    }
  }

  lemma ResourceStepSyncs(s: State, p: Progress<Key>, e: Name, prefix: Link, item: ResourceItem, done: map<Key, Document>)
    requires ResourcesUnderWay(s, p, e, done) && Linked(p.ix.namespaces, Rows(p.db))
    requires ResourceStep(p, e, prefix, item).Ok?
    ensures ResourcesUnderWay(s, ResourceStep(p, e, prefix, item).value, e, done[(prefix, item.name) := item.value])
  {
    var k, row := (prefix, item.name), ResourceRow(e, prefix, item.name, item.value);
    if k in p.left {
      var u := p.left[k];
      assert u in ResourceTable(p.db, e);
      PutResource(p.db, e, u, row);
      SyncUpdate(ResourceTable(s.db, e), ResourceTable(p.db, e), p.left, done, k, item.value);
    } else {
      FreshKey(p.ix.namespaces, p.db, e, k);
      PutResource(p.db, e, item.uuid, row);
      SyncInsert(ResourceTable(s.db, e), ResourceTable(p.db, e), p.left, done, item.uuid, k, item.value);
    }
  }

  lemma SoundPutResource(db: Database, u: Uuid, row: ResourceRow)
    requires Sound(db) && row.owner in db.elements
    ensures Sound(db.(resources := db.resources[u := row]))
  {
  }

  /** A stored resource with another value. */
  lemma SameKeySameRows(db: Database, u: Uuid, row: ResourceRow)
    requires Sound(db) && u in db.resources && row.owner == db.resources[u].owner && row.Link() == db.resources[u].Link()
    ensures Rows(db.(resources := db.resources[u := row])) == Rows(db)
  {
    RowsPutResource(db, u, row);
    assert HasRow(db, ResourceId(u)) && Rows(db)[ResourceId(u)] == ListedAt(db, ResourceId(u));
    PutBack(Rows(db), ResourceId(u), ListedAt(db, ResourceId(u)));
  }

  lemma InsertResource(ns: Namespaces, db: Database, u: Uuid, row: ResourceRow)
    requires Sound(db) && u !in db.resources && ElementLink(row.owner) in ns && Lookup(ns, row.owner, row.Link()).None?
    ensures var next, db' := Put(ns, row.owner, row.Link(), Own(u, row.Link())), db.(resources := db.resources[u := row]);
            && (Linked(ns, Rows(db)) ==> Linked(next, Rows(db')))
            && (Entered(ns, Rows(db)) ==> Entered(next, Rows(db')))
  {
    RowsPutResource(db, u, row);
    var rows, i, x := Rows(db), ResourceId(u), ResourceListed(u, row);
    if Linked(ns, rows) {
      LinkedPutAll(ns, rows, i, x);
    }
    if Entered(ns, rows) {
      EnteredPut(ns, rows, i, x);
    }
  }

  lemma ResourceStepSteady(p: Progress<Key>, e: Name, prefix: Link, item: ResourceItem)
    requires Steady(p.db, p.ix, e) && LeftOwned(p.db, p.left, e)
    requires ResourceStep(p, e, prefix, item).Ok?
    ensures Steady(ResourceStep(p, e, prefix, item).value.db, ResourceStep(p, e, prefix, item).value.ix, e)
  {
    var k, row := (prefix, item.name), ResourceRow(e, prefix, item.name, item.value);
    var u := if k in p.left then p.left[k] else item.uuid;
    assert Sound(p.db.(resources := p.db.resources[u := row])) by {
      SoundPutResource(p.db, u, row);
    }
    ResourceStepLinked(p, e, prefix, item);
  }

  lemma ResourceStepLinked(p: Progress<Key>, e: Name, prefix: Link, item: ResourceItem)
    requires Sound(p.db) && Linked(p.ix.namespaces, Rows(p.db)) && LeftOwned(p.db, p.left, e)
    requires ResourceStep(p, e, prefix, item).Ok?
    ensures Linked(ResourceStep(p, e, prefix, item).value.ix.namespaces, Rows(ResourceStep(p, e, prefix, item).value.db))
  {
    var k, row := (prefix, item.name), ResourceRow(e, prefix, item.name, item.value);
    if k in p.left {
      SameKeySameRows(p.db, p.left[k], row);
    } else {
      InsertResource(p.ix.namespaces, p.db, item.uuid, row);
    }
  }

  lemma ResourceStepEntered(p: Progress<Key>, e: Name, prefix: Link, item: ResourceItem)
    requires Sound(p.db) && LeftOwned(p.db, p.left, e) && Entered(p.ix.namespaces, Rows(p.db))
    requires ResourceStep(p, e, prefix, item).Ok?
    ensures Entered(ResourceStep(p, e, prefix, item).value.ix.namespaces, Rows(ResourceStep(p, e, prefix, item).value.db))
  {
    var k, row := (prefix, item.name), ResourceRow(e, prefix, item.name, item.value);
    if k in p.left {
      SameKeySameRows(p.db, p.left[k], row);
    } else {
      InsertResource(p.ix.namespaces, p.db, item.uuid, row);
    }
  }

  lemma ResourceStepGrows(p: Progress<Key>, e: Name, prefix: Link, item: ResourceItem)
    requires ResourceStep(p, e, prefix, item).Ok?
    ensures Grows(p.ix.namespaces, ResourceStep(p, e, prefix, item).value.ix.namespaces)
    ensures LeftOwned(p.db, p.left, e) ==>
              LeftOwned(ResourceStep(p, e, prefix, item).value.db, ResourceStep(p, e, prefix, item).value.left, e)
  {
    var row := ResourceRow(e, prefix, item.name, item.value);
    if (prefix, item.name) !in p.left {
      AddEntryGrows(p.ix, e, row.Link(), Own(item.uuid, row.Link()));
    }
  }

  // ---- Runs of steps ----

  ghost predicate Going(s: State, p: Progress<Key>, e: Name, done: map<Key, Document>) {
    && ResourcesUnderWay(s, p, e, done)
    && Steady(p.db, p.ix, e) && LeftOwned(p.db, p.left, e)
    && (Entered(s.ix.namespaces, Rows(s.db)) ==> Entered(p.ix.namespaces, Rows(p.db)))
  }

  lemma GoingStep(s: State, p: Progress<Key>, e: Name, prefix: Link, item: ResourceItem, done: map<Key, Document>)
    requires Going(s, p, e, done) && ResourceStep(p, e, prefix, item).Ok?
    ensures Going(s, ResourceStep(p, e, prefix, item).value, e, done[(prefix, item.name) := item.value])
  {
    ResourceStepSyncs(s, p, e, prefix, item, done);
    ResourceStepSteady(p, e, prefix, item);
    ResourceStepGrows(p, e, prefix, item);
    if Entered(p.ix.namespaces, Rows(p.db)) {
      ResourceStepEntered(p, e, prefix, item);
    }
  }

  lemma {:induction false} ResourceStepsKeep(s: State, p: Progress<Key>, e: Name, prefix: Link, items: seq<ResourceItem>,
                                             done: map<Key, Document>)
    requires Going(s, p, e, done) && ResourceSteps(p, e, prefix, items).Ok?
    ensures var q := ResourceSteps(p, e, prefix, items).value;
            Going(s, q, e, WantedItems(done, prefix, items)) && Grows(p.ix.namespaces, q.ix.namespaces)
  {
    if items != [] {
      var k := |items| - 1;
      ResourceStepsKeep(s, p, e, prefix, items[..k], done);
      var r := ResourceSteps(p, e, prefix, items[..k]).value;
      GoingStep(s, r, e, prefix, items[k], WantedItems(done, prefix, items[..k]));
      ResourceStepGrows(r, e, prefix, items[k]);
      GrowsOn(p.ix.namespaces, r.ix.namespaces, ResourceStep(r, e, prefix, items[k]).value.ix.namespaces);
    }
  }

  ghost function ResourceStart(s: State, e: Name): Progress<Key> {
    Progress(s.db, s.ix, ByKey(ResourceTable(s.db, e)))
  }

  lemma OneResourceEach(s: State, e: Name)
    requires Steady(s.db, s.ix, e)
    ensures OneEach(ResourceTable(s.db, e))
  {
    var rows := Rows(s.db);
    assert LinkedAt(s.ix.namespaces, rows, e);
    forall u, v | u in ResourceTable(s.db, e) && v in ResourceTable(s.db, e)
                  && ResourceTable(s.db, e)[u].0 == ResourceTable(s.db, e)[v].0
      ensures u == v
    {
      assert rows[ResourceId(u)] == ListedAt(s.db, ResourceId(u)) && rows[ResourceId(v)] == ListedAt(s.db, ResourceId(v));
    }
  }

  lemma {:induction false} GroupStepsKeep(s: State, e: Name, groups: seq<Group>)
    requires Steady(s.db, s.ix, e) && GroupSteps(ResourceStart(s, e), e, groups).Ok?
    ensures var q := GroupSteps(ResourceStart(s, e), e, groups).value;
            && Going(s, q, e, WantedResources(q.ix, e, groups))
            && AllResolve(q.ix, e, groups) && Grows(s.ix.namespaces, q.ix.namespaces)
  {
    var p := ResourceStart(s, e);
    if groups == [] {
      OneResourceEach(s, e);
      SyncStart(ResourceTable(s.db, e));
      ByKeyIsInverse(ResourceTable(s.db, e));
    } else {
      var k := |groups| - 1;
      GroupStepsKeep(s, e, groups[..k]);
      var r := GroupSteps(p, e, groups[..k]).value;
      var prefix := Resolve(r.ix, e, groups[k].prefix).value;
      ResourceStepsKeep(s, r, e, prefix, groups[k].items, WantedResources(r.ix, e, groups[..k]));
      var q := ResourceSteps(r, e, prefix, groups[k].items).value;
      GrowsOn(s.ix.namespaces, r.ix.namespaces, q.ix.namespaces);
      LastGroupStable(r.ix, q.ix, e, groups);
    }
  }

  lemma LastGroupStable(ix: Index, next: Index, e: Name, groups: seq<Group>)
    requires groups != [] && Grows(ix.namespaces, next.namespaces)
    requires AllResolve(ix, e, groups[..|groups| - 1]) && Resolve(ix, e, groups[|groups| - 1].prefix).Some?
    ensures AllResolve(next, e, groups)
    ensures var k := |groups| - 1;
            WantedResources(next, e, groups) ==
            WantedItems(WantedResources(ix, e, groups[..k]), Resolve(ix, e, groups[k].prefix).value, groups[k].items)
  {
    var k := |groups| - 1;
    var most, last := groups[..k], groups[k];
    assert groups == most + [last];
    WantedStable(ix, next, e, most);
    ResolveStable(ix, next, e, last.prefix);
    assert WantedResources(next, e, groups) ==
           WantedItems(WantedResources(next, e, most), Resolve(next, e, last.prefix).value, last.items);
  }

  // ---- Dropping what is left ----

  /** The element's stored resources that the manifest does not name. */
  ghost function Dropped(db: Database, e: Name, wanted: map<Key, Document>): set<Uuid> {
    set u | u in db.resources && db.resources[u].owner == e && (db.resources[u].prefix, db.resources[u].name) !in wanted
  }

  lemma LeftIsDropped(s: State, p: Progress<Key>, e: Name, wanted: map<Key, Document>)
    requires ResourcesUnderWay(s, p, e, wanted)
    ensures p.left.Values == Dropped(s.db, e, wanted)
  {
    var before, rows := ResourceTable(s.db, e), ResourceTable(p.db, e);
    forall u
      ensures u in p.left.Values <==> u in Dropped(s.db, e, wanted)
    {
      if u in p.left.Values {
        var k :| k in p.left && p.left[k] == u;
        assert u in rows;
      }
      if u in Dropped(s.db, e, wanted) {
        assert u in before && u in rows && rows[u].0 == before[u].0;
        assert rows[u].0 in p.left;
      }
    }
  }

  lemma DroppedResourceTables(db: Database, e: Name, us: set<Uuid>)
    requires forall u | u in us && u in db.resources :: db.resources[u].owner == e
    ensures var next := db.(resources := db.resources - us, imports := db.imports - Sourced(db, us));
            ResourceTable(next, e) == ResourceTable(db, e) - us && OtherResources(next, e) == OtherResources(db, e)
  {
  }

  lemma SoundDropResources(db: Database, us: set<Uuid>)
    requires Sound(db)
    ensures Sound(db.(resources := db.resources - us, imports := db.imports - Sourced(db, us)))
  {
  }

  lemma LeftResourceLinks(p: Progress<Key>, e: Name)
    requires LeftOwned(p.db, p.left, e)
    ensures forall i | i in ResourceIds(p.left.Values) :: i in Rows(p.db) && Rows(p.db)[i].owner == e
    ensures (set k | k in p.left :: ResourceLink(k.0, k.1)) == LinksOf(Rows(p.db), ResourceIds(p.left.Values))
  {
    var rows, gone := Rows(p.db), ResourceIds(p.left.Values);
    forall i | i in gone
      ensures i in rows && rows[i].owner == e
      ensures exists k :: k in p.left && rows[i].link == ResourceLink(k.0, k.1)
    {
      var k :| k in p.left && p.left[k] == i.uuid;
      assert HasRow(p.db, i) && rows[i] == ListedAt(p.db, i);
    }
    forall k | k in p.left
      ensures ResourceLink(k.0, k.1) in LinksOf(rows, gone)
    {
      var i := ResourceId(p.left[k]);
      assert p.left[k] in p.left.Values && HasRow(p.db, i) && rows[i] == ListedAt(p.db, i);
    }
  }

  /** Some import of the element comes from one of these resources. */
  ghost predicate ImportsFrom(db: Database, n: Name, us: set<Uuid>) {
    exists u | u in db.imports :: db.imports[u].owner == n && db.imports[u].source in us
  }

  lemma DropResourcesLinks(p: Progress<Key>, e: Name, n: Name)
    requires Steady(p.db, p.ix, e) && LeftOwned(p.db, p.left, e) && DropResources(p, e).Ok?
    ensures LinkedAt(DropResources(p, e).value.ix.namespaces, Rows(DropResources(p, e).value.db), n) <==>
            !ImportsFrom(p.db, n, p.left.Values)
  {
    var s, us := DropResources(p, e).value, p.left.Values;
    var rows, gone, lost := Rows(p.db), ResourceIds(us), ImportIds(Sourced(p.db, us));
    assert s.db.imports == p.db.imports - Sourced(p.db, us);
    RowsDropResources(p.db, us);
    LeftResourceLinks(p, e);
    assert LinkedAt(p.ix.namespaces, rows, n) && LinkedAt(p.ix.namespaces, rows, e);
    assert lost <= rows.Keys by {
      SourcedAreListed(p.db, us);
    }
    LinkedCutIff(p.ix.namespaces, rows, e, gone, lost, n);
    LostOwners(p.db, us, n);
  }

  lemma SourcedAreListed(db: Database, us: set<Uuid>)
    requires Sound(db)
    ensures forall i | i in ImportIds(Sourced(db, us)) :: i in Rows(db)
  {
  }

  lemma LostOwners(db: Database, us: set<Uuid>, n: Name)
    requires Sound(db)
    ensures ImportsFrom(db, n, us) <==> exists i :: i in ImportIds(Sourced(db, us)) && i in Rows(db) && Rows(db)[i].owner == n
  {
    if u :| u in db.imports && db.imports[u].owner == n && db.imports[u].source in us {
      var i := ImportId(u);
      assert i in ImportIds(Sourced(db, us)) && HasRow(db, i) && Rows(db)[i] == ListedAt(db, i);
    }
    if i :| i in ImportIds(Sourced(db, us)) && i in Rows(db) && Rows(db)[i].owner == n {
      assert i.ImportId? && Rows(db)[i] == ListedAt(db, i);
    }
  }

  lemma DropResourcesEntered(p: Progress<Key>, e: Name)
    requires Steady(p.db, p.ix, e) && LeftOwned(p.db, p.left, e) && DropResources(p, e).Ok?
    requires Entered(p.ix.namespaces, Rows(p.db))
    ensures Entered(DropResources(p, e).value.ix.namespaces, Rows(DropResources(p, e).value.db))
  {
    var us := p.left.Values;
    var rows, gone := Rows(p.db), ResourceIds(us);
    RowsDropResources(p.db, us);
    LeftResourceLinks(p, e);
    assert LinkedAt(p.ix.namespaces, rows, e);
    EnteredCut(p.ix.namespaces, rows, e, gone);
    FewerEntered(Cut(p.ix.namespaces, e, LinksOf(rows, gone)), rows - gone, ImportIds(Sourced(p.db, us)));
  }

  lemma FewerEntered(ns: Namespaces, rows: Catalogue, lost: set<RowId>)
    requires Entered(ns, rows)
    ensures Entered(ns, rows - lost)
  {
  }

  /** The index the prefixes are resolved through: all groups entered, nothing dropped. */
  ghost function FullIndex(s: State, e: Name, groups: seq<Group>): Index {
    var r := GroupSteps(ResourceStart(s, e), e, groups);
    if r.Ok? then r.value.ix else s.ix
  }

  ghost function RequestedResources(s: State, e: Name, groups: seq<Group>): map<Key, Document> {
    WantedResources(FullIndex(s, e, groups), e, groups)
  }

  /** The resource phase: the element's resources are the manifest's, those stored already
      keep their identifiers, nobody else's resources change. */
  lemma ResourcePhase(s: State, e: Name, groups: seq<Group>)
    requires Steady(s.db, s.ix, e) && ResourcesApplied(s, e, groups).Ok?
    ensures var s', wanted := ResourcesApplied(s, e, groups).value, RequestedResources(s, e, groups);
            && OtherResources(s'.db, e) == OtherResources(s.db, e)
            && Realises(ResourceTable(s'.db, e), wanted)
            && Kept(ResourceTable(s.db, e), ResourceTable(s'.db, e), wanted)
  {
    var q, wanted := GroupSteps(ResourceStart(s, e), e, groups).value, RequestedResources(s, e, groups);
    assert ResourcesUnderWay(s, q, e, wanted) && LeftOwned(q.db, q.left, e) by {
      GroupStepsKeep(s, e, groups);
    }
    DroppedResourceTables(q.db, e, q.left.Values);
    SyncDrop(ResourceTable(s.db, e), ResourceTable(q.db, e), q.left, wanted);
  }

  /** Imports go with the resources they came from; the other tables stay. */
  lemma ResourcePhaseKeeps(s: State, e: Name, groups: seq<Group>)
    requires Steady(s.db, s.ix, e) && ResourcesApplied(s, e, groups).Ok?
    ensures var s', dropped := ResourcesApplied(s, e, groups).value, Dropped(s.db, e, RequestedResources(s, e, groups));
            && Sound(s'.db) && Named(s'.ix.namespaces, s'.db.elements.Keys)
            && s'.db == s.db.(resources := s'.db.resources, imports := s.db.imports - Sourced(s.db, dropped))
            && s'.ix.exports == s.ix.exports
            && (Entered(s.ix.namespaces, Rows(s.db)) ==> Entered(s'.ix.namespaces, Rows(s'.db)))
  {
    var q, wanted := GroupSteps(ResourceStart(s, e), e, groups).value, RequestedResources(s, e, groups);
    assert Sound(q.db) && Named(q.ix.namespaces, q.db.elements.Keys) && ResourcesUnderWay(s, q, e, wanted) by {
      GroupStepsKeep(s, e, groups);
    }
    LeftIsDropped(s, q, e, wanted);
    DropResourcesKeeps(q, e);
    if Entered(s.ix.namespaces, Rows(s.db)) {
      GroupStepsKeep(s, e, groups);
      DropResourcesEntered(q, e);
    }
  }

  lemma DropResourcesKeeps(p: Progress<Key>, e: Name)
    requires Sound(p.db) && Named(p.ix.namespaces, p.db.elements.Keys) && DropResources(p, e).Ok?
    ensures var s := DropResources(p, e).value;
            && Sound(s.db) && Named(s.ix.namespaces, s.db.elements.Keys) && s.ix.exports == p.ix.exports
            && s.db == p.db.(resources := p.db.resources - p.left.Values, imports := p.db.imports - Sourced(p.db, p.left.Values))
  {
    SoundDropResources(p.db, p.left.Values);
    assert DropResources(p, e).value.db.imports == p.db.imports - Sourced(p.db, p.left.Values);
  }

  /** After the resource phase a namespace has the links of its rows exactly when none of
      the element's imports came from a resource the manifest no longer names. */
  lemma ResourcePhaseLinks(s: State, e: Name, groups: seq<Group>, n: Name)
    requires Steady(s.db, s.ix, e) && ResourcesApplied(s, e, groups).Ok?
    ensures var s', dropped := ResourcesApplied(s, e, groups).value, Dropped(s.db, e, RequestedResources(s, e, groups));
            LinkedAt(s'.ix.namespaces, Rows(s'.db), n) <==> !ImportsFrom(s.db, n, dropped)
  {
    GroupStepsKeep(s, e, groups);
    var q := GroupSteps(ResourceStart(s, e), e, groups).value;
    LeftIsDropped(s, q, e, RequestedResources(s, e, groups));
    DropResourcesLinks(q, e, n);
  }

  lemma DropResourcesCuts(p: Progress<Key>, e: Name, k: Link)
    requires DropResources(p, e).Ok?
    ensures Lookup(DropResources(p, e).value.ix.namespaces, e, k) ==
            if exists j :: j in p.left && ResourceLink(j.0, j.1) == k then None else Lookup(p.ix.namespaces, e, k)
  {
    LookupCut(p.ix.namespaces, e, set j | j in p.left :: ResourceLink(j.0, j.1));
  }

  /** Links of an element's namespace through the resource phase: exactly those of the
      resources the manifest no longer names are taken out. */
  lemma ResourcePhaseCuts(s: State, e: Name, groups: seq<Group>, k: Link)
    requires Steady(s.db, s.ix, e) && ResourcesApplied(s, e, groups).Ok? && Lookup(s.ix.namespaces, e, k).Some?
    ensures var s', dropped := ResourcesApplied(s, e, groups).value, Dropped(s.db, e, RequestedResources(s, e, groups));
            Lookup(s'.ix.namespaces, e, k) ==
            if exists u | u in dropped :: s.db.resources[u].Link() == k then None else Lookup(s.ix.namespaces, e, k)
  {
    var q, wanted := GroupSteps(ResourceStart(s, e), e, groups).value, RequestedResources(s, e, groups);
    assert Lookup(q.ix.namespaces, e, k) == Lookup(s.ix.namespaces, e, k) by {
      GroupStepsKeep(s, e, groups);
    }
    DropResourcesCuts(q, e, k);
    DroppedLinks(s, e, groups, k);
  }

  lemma DroppedLinks(s: State, e: Name, groups: seq<Group>, k: Link)
    requires Steady(s.db, s.ix, e) && GroupSteps(ResourceStart(s, e), e, groups).Ok?
    ensures var q, wanted := GroupSteps(ResourceStart(s, e), e, groups).value, RequestedResources(s, e, groups);
            (exists j :: j in q.left && ResourceLink(j.0, j.1) == k) <==>
            exists u | u in Dropped(s.db, e, wanted) :: s.db.resources[u].Link() == k
  {
    var q, wanted := GroupSteps(ResourceStart(s, e), e, groups).value, RequestedResources(s, e, groups);
    assert ResourcesUnderWay(s, q, e, wanted) && LeftOwned(q.db, q.left, e) by {
      GroupStepsKeep(s, e, groups);
    }
    LeftIsDropped(s, q, e, wanted);
    LeftLinksAre(s, q, e, wanted, k);
  }

  lemma LeftLinksAre(s: State, p: Progress<Key>, e: Name, wanted: map<Key, Document>, k: Link)
    requires ResourcesUnderWay(s, p, e, wanted) && LeftOwned(p.db, p.left, e) && p.left.Values == Dropped(s.db, e, wanted)
    ensures (exists j :: j in p.left && ResourceLink(j.0, j.1) == k) <==>
            exists u | u in Dropped(s.db, e, wanted) :: s.db.resources[u].Link() == k
  {
    var before, rows := ResourceTable(s.db, e), ResourceTable(p.db, e);
    forall j | j in p.left
      ensures p.left[j] in Dropped(s.db, e, wanted) && s.db.resources[p.left[j]].Link() == ResourceLink(j.0, j.1)
    {
      assert p.left[j] in p.left.Values && p.left[j] in before && rows[p.left[j]].0 == before[p.left[j]].0;
    }
    forall u | u in Dropped(s.db, e, wanted)
      ensures exists j :: j in p.left && p.left[j] == u
    {
      assert u in p.left.Values;
    }
  }
}
