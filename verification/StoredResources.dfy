/**
 Where a manifest's resources are stored: each under its own prefix, or, when the prefix goes
 through an import, under the link of what was imported.
 */
module StoredResources {
  import opened Common
  import opened Documents
  import opened Elements
  import opened Installation
  import opened Links
  import opened ManifestImports
  import opened ManifestResources
  import opened Manifests
  import opened TableSync

  // ---- Every item is asked for, with its value ----

  ghost predicate Extends(done: map<Key, Document>, more: map<Key, Document>) {
    forall k | k in done :: k in more && more[k] == done[k]
  }

  ghost predicate ItemsIn(wanted: map<Key, Document>, prefix: Link, items: seq<ResourceItem>) {
    forall item | item in items :: (prefix, item.name) in wanted && wanted[(prefix, item.name)] == item.value
  }

  /** No key is applied twice: the second time its link is taken. */
  lemma StepIsFresh(s: State, p: Progress<Key>, e: Name, prefix: Link, item: ResourceItem, done: map<Key, Document>)
    requires Going(s, p, e, done) && ResourceStep(p, e, prefix, item).Ok?
    ensures (prefix, item.name) !in done
  {
    var k := (prefix, item.name);
    if k !in p.left {
      FreshKey(p.ix.namespaces, p.db, e, k);
      assert k in done ==> HasKey(ResourceTable(p.db, e), k);
    }
  }

  lemma {:induction false} ItemsAreWanted(s: State, p: Progress<Key>, e: Name, prefix: Link, items: seq<ResourceItem>,
                                          done: map<Key, Document>)
    requires Going(s, p, e, done) && ResourceSteps(p, e, prefix, items).Ok?
    ensures Extends(done, WantedItems(done, prefix, items)) && ItemsIn(WantedItems(done, prefix, items), prefix, items)
  {
    if items != [] {
      var k := |items| - 1;
      ItemsAreWanted(s, p, e, prefix, items[..k], done);
      LastItemIsFresh(s, p, e, prefix, items, done);
      ItemsAppend(done, prefix, items);
    }
  }

  lemma LastItemIsFresh(s: State, p: Progress<Key>, e: Name, prefix: Link, items: seq<ResourceItem>, done: map<Key, Document>)
    requires Going(s, p, e, done) && items != [] && ResourceSteps(p, e, prefix, items).Ok?
    ensures (prefix, items[|items| - 1].name) !in WantedItems(done, prefix, items[..|items| - 1])
  {
    var k := |items| - 1;
    ResourceStepsKeep(s, p, e, prefix, items[..k], done);
    StepIsFresh(s, ResourceSteps(p, e, prefix, items[..k]).value, e, prefix, items[k], WantedItems(done, prefix, items[..k]));
  }

  lemma ItemsAppend(done: map<Key, Document>, prefix: Link, items: seq<ResourceItem>)
    requires items != []
    requires var most := WantedItems(done, prefix, items[..|items| - 1]);
             && Extends(done, most) && ItemsIn(most, prefix, items[..|items| - 1])
             && (prefix, items[|items| - 1].name) !in most
    ensures Extends(done, WantedItems(done, prefix, items)) && ItemsIn(WantedItems(done, prefix, items), prefix, items)
  {
    var most, last := items[..|items| - 1], items[|items| - 1];
    var before, wanted := WantedItems(done, prefix, most), WantedItems(done, prefix, items);
    assert wanted == before[(prefix, last.name) := last.value];
    forall item | item in items
      ensures (prefix, item.name) in wanted && wanted[(prefix, item.name)] == item.value
    {
      if item != last {
        var i :| 0 <= i < |items| && items[i] == item;
        assert item == most[i] && item in most;
      }
    }
  }

  ghost predicate GroupsIn(ix: Index, e: Name, groups: seq<Group>, wanted: map<Key, Document>) {
    forall g | g in groups :: Resolve(ix, e, g.prefix).Some? && ItemsIn(wanted, Resolve(ix, e, g.prefix).value, g.items)
  }

  lemma {:induction false} GroupsAreWanted(s: State, e: Name, groups: seq<Group>)
    requires Steady(s.db, s.ix, e) && GroupSteps(ResourceStart(s, e), e, groups).Ok?
    ensures var q := GroupSteps(ResourceStart(s, e), e, groups).value;
            GroupsIn(q.ix, e, groups, WantedResources(q.ix, e, groups))
  {
    if groups != [] {
      var k := |groups| - 1;
      GroupsAreWanted(s, e, groups[..k]);
      LastGroupIsWanted(s, e, groups);
    }
  }

  lemma LastGroupIsWanted(s: State, e: Name, groups: seq<Group>)
    requires Steady(s.db, s.ix, e) && groups != [] && GroupSteps(ResourceStart(s, e), e, groups).Ok?
    requires var r := GroupSteps(ResourceStart(s, e), e, groups[..|groups| - 1]).value;
             GroupsIn(r.ix, e, groups[..|groups| - 1], WantedResources(r.ix, e, groups[..|groups| - 1]))
    ensures var q := GroupSteps(ResourceStart(s, e), e, groups).value;
            GroupsIn(q.ix, e, groups, WantedResources(q.ix, e, groups))
  {
    var k := |groups| - 1;
    var r, q := GroupSteps(ResourceStart(s, e), e, groups[..k]).value, GroupSteps(ResourceStart(s, e), e, groups).value;
    var before := WantedResources(r.ix, e, groups[..k]);
    var prefix := Resolve(r.ix, e, groups[k].prefix).value;
    var wanted := WantedItems(before, prefix, groups[k].items);
    LastGroupSteps(s, r, e, prefix, groups[..k], groups[k], before);
    assert WantedResources(q.ix, e, groups) == wanted by {
      LastGroupStable(r.ix, q.ix, e, groups);
    }
    GroupsAppend(r.ix, q.ix, e, groups, before, wanted);
  }

  lemma GroupsAppend(ix: Index, next: Index, e: Name, groups: seq<Group>, before: map<Key, Document>, wanted: map<Key, Document>)
    requires groups != [] && Grows(ix.namespaces, next.namespaces)
    requires GroupsIn(ix, e, groups[..|groups| - 1], before) && Extends(before, wanted)
    requires Resolve(ix, e, groups[|groups| - 1].prefix).Some?
    requires ItemsIn(wanted, Resolve(ix, e, groups[|groups| - 1].prefix).value, groups[|groups| - 1].items)
    ensures GroupsIn(next, e, groups, wanted)
  {
    var most, last := groups[..|groups| - 1], groups[|groups| - 1];
    GroupsStay(ix, next, e, most, last, before, wanted);
    assert groups == most + [last];
  }

  lemma LastGroupSteps(s: State, r: Progress<Key>, e: Name, prefix: Link, most: seq<Group>, last: Group, before: map<Key, Document>)
    requires Steady(s.db, s.ix, e) && GroupSteps(ResourceStart(s, e), e, most) == Ok(r)
    requires before == WantedResources(r.ix, e, most) && ResourceSteps(r, e, prefix, last.items).Ok?
    ensures AllResolve(r.ix, e, most)
    ensures Grows(r.ix.namespaces, ResourceSteps(r, e, prefix, last.items).value.ix.namespaces)
    ensures Extends(before, WantedItems(before, prefix, last.items))
    ensures ItemsIn(WantedItems(before, prefix, last.items), prefix, last.items)
  {
    GroupStepsKeep(s, e, most);
    ResourceStepsKeep(s, r, e, prefix, last.items, before);
    ItemsAreWanted(s, r, e, prefix, last.items, before);
  }

  lemma GroupsStay(ix: Index, next: Index, e: Name, most: seq<Group>, last: Group, before: map<Key, Document>, wanted: map<Key, Document>)
    requires Grows(ix.namespaces, next.namespaces) && GroupsIn(ix, e, most, before) && Extends(before, wanted)
    requires Resolve(ix, e, last.prefix).Some? && ItemsIn(wanted, Resolve(ix, e, last.prefix).value, last.items)
    ensures GroupsIn(next, e, most + [last], wanted)
  {
    forall g | g in most + [last]
      ensures Resolve(next, e, g.prefix) == Resolve(ix, e, g.prefix) && Resolve(ix, e, g.prefix).Some?
      ensures ItemsIn(wanted, Resolve(ix, e, g.prefix).value, g.items)
    {
      if g in most {
        assert ItemsIn(before, Resolve(ix, e, g.prefix).value, g.items);
      }
      ResolveStable(ix, next, e, g.prefix);
    }
  }

  // ---- Every item is stored ----

  /** The element has this resource. */
  ghost predicate Stored(db: Database, e: Name, prefix: Link, name: string, value: Document) {
    exists u :: u in db.resources && db.resources[u] == ResourceRow(e, prefix, name, value)
  }

  /** Every resource of the manifest is stored with its value, under the prefix its group's
      prefix resolves to. */
  lemma AppliedStores(s: State, m: Manifest, group: Group, item: ResourceItem)
    requires Sound(s.db) && Indexes(s.ix, s.db) && m.name in s.db.elements && Applied(s, m).Ok?
    requires group in m.groups && item in group.items
    ensures var ix := FullIndex(AfterImports(s, m), m.name, m.groups);
            && Resolve(ix, m.name, group.prefix).Some?
            && Stored(Applied(s, m).value.db, m.name, Resolve(ix, m.name, group.prefix).value, item.name, item.value)
  {
    var e, a, db := m.name, AfterImports(s, m), Applied(s, m).value.db;
    var ix, wanted := FullIndex(a, e, m.groups), RequestedResources(a, e, m.groups);
    assert Steady(a.db, a.ix, e) by {
      PhasesAreSteady(s, m);
    }
    GroupsAreWanted(a, e, m.groups);
    var k := (Resolve(ix, e, group.prefix).value, item.name);
    assert ItemsIn(wanted, k.0, group.items);
    AppliedResources(s, m);
    assert HasKey(ResourceTable(db, e), k);
    var u :| u in ResourceTable(db, e) && ResourceTable(db, e)[u].0 == k;
    assert ResourceTable(db, e)[u].1 == wanted[k];
    assert db.resources[u] == ResourceRow(e, k.0, item.name, item.value);
  }

  // ---- Through an import ----

  /** After the import phase an import leads to its source's own link. */
  lemma ImportLeads(s: State, m: Manifest, item: ImportItem)
    requires Sound(s.db) && Indexes(s.ix, s.db) && m.name in s.db.elements && Applied(s, m).Ok?
    requires item in m.imports && SameSources(s, m.name, m.imports)
    ensures var source := SourceOf(s.ix, item);
            && source in s.db.resources
            && Lookup(AfterImports(s, m).ix.namespaces, m.name, ImportLink(m.name, item.name)) ==
               Some(Imported(source, s.db.resources[source].Link()))
  {
    var e, a := m.name, AfterImports(s, m);
    assert Steady(s.db, s.ix, e) && SourcesExist(s.db, s.ix) by {
      IndexesAreSteady(s, e);
    }
    ImportPhase(s, e, m.imports);
    NamedOnce(s, e, m.imports);
    var u := WantedRow(a.db, e, WantedImports(s.ix, m.imports), item.name);
    assert HasRow(a.db, ImportId(u)) && Rows(a.db)[ImportId(u)] == ListedAt(a.db, ImportId(u));
  }

  lemma WantedRow(db: Database, e: Name, wanted: map<string, (Link, Uuid)>, name: string) returns (u: Uuid)
    requires Realises(ImportTable(db, e), wanted) && name in wanted
    ensures u in db.imports && db.imports[u].owner == e && db.imports[u].name == name && db.imports[u].source == wanted[name].1
  {
    var rows := ImportTable(db, e);
    assert HasKey(rows, name);
    u :| u in rows && rows[u].0 == name;
  }

  /** A resource whose prefix goes through an import of the manifest is stored under the link
      of the imported resource itself, followed by the rest of the prefix. */
  lemma StoredThroughImport(s: State, m: Manifest, imported: ImportItem, group: Group, item: ResourceItem, parts: seq<string>, k: nat)
    requires Sound(s.db) && Indexes(s.ix, s.db) && m.name in s.db.elements && Applied(s, m).Ok?
    requires imported in m.imports && SameSources(s, m.name, m.imports) && group in m.groups && item in group.items
    requires PartsOf(group.prefix, parts) && CutsAt(parts, k) && Join(parts[..k + 1], '.') == ImportLink(m.name, imported.name)
    ensures SourceOf(s.ix, imported) in s.db.resources
    ensures ImportLink(m.name, imported.name) <= group.prefix
    ensures var origin, rest := s.db.resources[SourceOf(s.ix, imported)].Link(), group.prefix[|ImportLink(m.name, imported.name)|..];
            Stored(Applied(s, m).value.db, m.name, origin + rest, item.name, item.value)
  {
    var e, a, link := m.name, AfterImports(s, m), ImportLink(m.name, imported.name);
    var ix := FullIndex(a, e, m.groups);
    AppliedStores(s, m, group, item);
    ImportLeads(s, m, imported);
    ImportLinkDotted(e, imported.name);
    DottedIff(parts, k);
    assert Grows(a.ix.namespaces, ix.namespaces) && OwnLinks(ix.namespaces, e) && Named(ix.namespaces, s.db.elements.Keys) by {
      FullIndexIsRight(s, m);
    }
    ResolveCases(ix, e, group.prefix, parts, k);
  }

  lemma FullIndexIsRight(s: State, m: Manifest)
    requires Sound(s.db) && Indexes(s.ix, s.db) && m.name in s.db.elements && Applied(s, m).Ok? && SameSources(s, m.name, m.imports)
    ensures var ix := FullIndex(AfterImports(s, m), m.name, m.groups);
            && Grows(AfterImports(s, m).ix.namespaces, ix.namespaces)
            && OwnLinks(ix.namespaces, m.name) && Named(ix.namespaces, s.db.elements.Keys)
  {
    var e, a := m.name, AfterImports(s, m);
    assert Steady(a.db, a.ix, e) && Entered(a.ix.namespaces, Rows(a.db)) && a.db.elements == s.db.elements by {
      IndexesAreSteady(s, e);
      ImportPhase(s, e, m.imports);
    }
    GroupStepsKeep(a, e, m.groups);
    var q := GroupSteps(ResourceStart(a, e), e, m.groups).value;
    EntriesHaveLinks(State(q.db, q.ix), e);
  }

  /** Prefixes as manifests write them: `$element.imports.$name` and more parts, none of which
      starts with a dollar sign. They go through the import unless it has the element's own
      name: then the first part is taken, and the prefix stays the element's. */
  lemma ImportPrefixParts(e: Name, name: string, more: seq<string>)
    requires '.' !in e && ':' !in e && '.' !in name && ':' !in name
    requires forall p | p in more :: '.' !in p && ':' !in p && (p == "" || p[0] != '$')
    ensures var parts, full := ["$" + e, "imports", "$" + name] + more, Join(["$" + e, "imports", "$" + name] + more, '.');
            && PartsOf(full, parts)
            && CutsAt(parts, if name == e then 0 else 2)
            && Join(parts[..3], '.') == ImportLink(e, name)
  {
    var parts := ["$" + e, "imports", "$" + name] + more;
    assert parts[..3] == ["$" + e, "imports", "$" + name];
    ThreeParts("$" + e, "imports", "$" + name);
    assert PartsOf(Join(parts, '.'), parts);
    ImportCut(e, name, more);
  }

  lemma ImportCut(e: Name, name: string, more: seq<string>)
    requires forall p | p in more :: p == "" || p[0] != '$'
    ensures CutsAt(["$" + e, "imports", "$" + name] + more, if name == e then 0 else 2)
  {
    var parts := ["$" + e, "imports", "$" + name] + more;
    assert ("$" + e)[1..] == e && ("$" + name)[1..] == name;
    assert parts[..2] == ["$" + e, "imports"] && parts[..0] == [];
    forall j | 2 < j < |parts|
      ensures parts[j] in more
    {
      assert parts[j] == more[j - 3];
    }
  }

  lemma ThreeParts(a: string, b: string, c: string)
    ensures Join([a, b, c], '.') == a + "." + b + "." + c
  {
    assert [a, b, c][1..] == [b, c] && [b, c][1..] == [c];
    assert Join([b, c], '.') == b + ['.'] + c;
    assert Join([a, b, c], '.') == a + ['.'] + (b + ['.'] + c);
  }
}
