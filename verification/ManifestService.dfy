/** Installing and upgrading manifests in place, on the database and the element engine. */
module ManifestService {
  import opened Common
  import opened ElementEngine
  import opened Elements
  import opened Installation
  import opened Links
  import opened ManifestExports
  import opened ManifestImports
  import opened ManifestResources
  import opened Manifests
  import opened TableSync

  /** A successful call leaves the state the specification gives; a refused one is rolled
      back by its caller, and which refusal comes first is not promised. */
  ghost predicate Follows(refusal: Option<Refusal>, s: State, spec: Result<State, Refusal>) {
    match spec
    case Ok(v) => refusal.None? && s == v
    case Err(_) => refusal.Some?
  }

  lemma CutOnce(ns: Namespaces, e: Name, ks: set<Link>, k: Link)
    requires ElementLink(e) in ns
    ensures Cut(Cut(ns, e, ks), e, {k}) == Cut(ns, e, ks + {k})
  {
    assert ns[ElementLink(e)].entries - ks - {k} == ns[ElementLink(e)].entries - (ks + {k});
  }

  lemma CutNothing(ns: Namespaces, e: Name)
    requires ElementLink(e) in ns
    ensures Cut(ns, e, {}) == ns
  {
    assert ns[ElementLink(e)].entries - {} == ns[ElementLink(e)].entries;
  }

  ghost function ImportLinks(e: Name, names: set<string>): (r: set<Link>)
    ensures forall k :: k in r <==> exists n :: n in names && k == ImportLink(e, n)
  {
    set n | n in names :: ImportLink(e, n)
  }

  lemma ImportLinkInjective(e: Name, n: string, m: string)
    requires ImportLink(e, n) == ImportLink(e, m)
    ensures n == m
  {
    var k := |ElementLink(e) + ".imports.$"|;
    assert ImportLink(e, n)[k..] == n && ImportLink(e, m)[k..] == m;
  }

  class ManifestStore {
    var db: Database
    const engine: Engine

    ghost function Value(): State
      reads this, engine
    {
      State(db, engine.Value())
    }

    constructor (db: Database)
      ensures this.db == db && fresh(engine)
    {
      this.db := db;
      engine := new Engine();
    }

    // ---- Imports ----

    method ExistingImports(e: Name) returns (left: map<string, Uuid>)
      requires Sound(db)
      ensures left == ByKey(ImportTable(db, e))
    {
      left := map[];
      var todo := db.imports.Keys;
      while todo != {}
        invariant todo <= db.imports.Keys
        invariant forall n | n in left ::
          left[n] in db.imports.Keys - todo && db.imports[left[n]].owner == e && db.imports[left[n]].name == n
        invariant forall u | u in db.imports.Keys - todo && db.imports[u].owner == e ::
          db.imports[u].name in left && left[db.imports[u].name] == u
      {
        var u :| u in todo;
        if db.imports[u].owner == e {
          left := left[db.imports[u].name := u];
        }
        todo := todo - {u};
      }
      OneImportEach(db, e);
      IsByKey(ImportTable(db, e), left);
    }

    /** One import of the manifest: the row it has is updated, or a new one is inserted
        and entered into the engine. */
    method ApplyImport(e: Name, item: ImportItem, left: map<string, Uuid>) returns (refusal: Option<Refusal>, rest: map<string, Uuid>)
      modifies this, engine
      ensures match ImportStep(Progress(old(db), old(engine.Value()), left), e, item)
              case Ok(q) => refusal.None? && Progress(db, engine.Value(), rest) == q
              case Err(_) => refusal.Some?
    {
      rest := left;
      if item.element !in engine.namespaces {
        return Some(NamespaceNotFound), rest;
      }
      var fromElement := engine.namespaces[item.element].element;
      if item.link !in engine.exports {
        return Some(ExportMissing), rest;
      }
      var source := engine.exports[item.link];
      if source.Imported? {
        return Some(NotAResource), rest;
      }
      if source.uuid !in db.resources {
        return Some(SourceMissing), rest;
      }
      var row := ImportRow(e, fromElement, source.uuid, item.name);
      if item.name in left {
        rest := left - {item.name};
        db := db.(imports := db.imports[left[item.name] := row]);
        refusal := None;
      } else {
        if item.uuid in db.imports || ImportNamed(db, e, item.name) {
          return Some(RowExists), rest;
        }
        db := db.(imports := db.imports[item.uuid := row]);
        refusal := engine.AddResource(e, ImportLink(e, item.name), Imported(source.uuid, source.link));
      }
    }

    method DeleteImports(e: Name, left: map<string, Uuid>) returns (refusal: Option<Refusal>)
      requires ElementLink(e) in engine.namespaces
      modifies this, engine
      ensures Follows(refusal, Value(), DropImports(Progress(old(db), old(engine.Value()), left), e))
    {
      var names := left.Keys;
      ghost var done: set<string> := {};
      CutNothing(engine.namespaces, e);
      assert ImportLinks(e, {}) == {} && old(db.imports) - {} == old(db.imports);
      while names != {}
        invariant names == left.Keys - done && done <= left.Keys
        invariant engine.Value() == old(engine.Value()).(namespaces := Cut(old(engine.namespaces), e, ImportLinks(e, done)))
        invariant db == old(db).(imports := old(db.imports) - (set n | n in done :: left[n]))
        invariant forall n | n in done :: Lookup(old(engine.namespaces), e, ImportLink(e, n)).Some?
      {
        var n :| n in names;
        assert ImportLink(e, n) !in ImportLinks(e, done) by {
          NotCutYet(e, n, done);
        }
        LookupCut(old(engine.namespaces), e, ImportLinks(e, done));
        CutOnce(old(engine.namespaces), e, ImportLinks(e, done), ImportLink(e, n));
        refusal := engine.DeleteResource(e, ImportLink(e, n));
        if refusal.Some? {
          return;
        }
        db := db.(imports := db.imports - {left[n]});
        names := names - {n};
        assert ImportLinks(e, done + {n}) == ImportLinks(e, done) + {ImportLink(e, n)};
        done := done + {n};
      }
      assert done == left.Keys;
      refusal := None;
    }

    method ApplyImports(e: Name, items: seq<ImportItem>) returns (refusal: Option<Refusal>)
      requires Sound(db) && ElementLink(e) in engine.namespaces
      modifies this, engine
      ensures Follows(refusal, Value(), ImportsApplied(old(Value()), e, items))
    {
      var left := ExistingImports(e);
      ghost var p := ImportStart(Value(), left);
      var i := 0;
      while i < |items|
        invariant i <= |items| && ElementLink(e) in engine.namespaces
        invariant ImportSteps(p, e, items[..i]) == Ok(Progress(db, engine.Value(), left))
      {
        assert items[..i + 1][..i] == items[..i];
        refusal, left := ApplyImport(e, items[i], left);
        if refusal.Some? {
          ImportStepsErr(p, e, items, i + 1);
          return;
        }
        i := i + 1;
      }
      assert items[..i] == items;
      refusal := DeleteImports(e, left);
    }

    // ---- Resources ----

    method ExistingResources(e: Name) returns (left: map<Key, Uuid>)
      requires Steady(db, engine.Value(), e)
      ensures left == ByKey(ResourceTable(db, e))
    {
      OneResourceEach(Value(), e);
      ghost var table := ResourceTable(db, e);
      left := map[];
      var todo := db.resources.Keys;
      while todo != {}
        invariant todo <= db.resources.Keys
        invariant forall k | k in left :: left[k] in table && left[k] !in todo && table[left[k]].0 == k
        invariant forall u | u in table && u !in todo :: table[u].0 in left
      {
        var u :| u in todo;
        var row := db.resources[u];
        if row.owner == e {
          left := left[(row.prefix, row.name) := u];
        }
        todo := todo - {u};
      }
      IsByKey(table, left);
    }

    /** `LinkResolver(...).full_link_original`. */
    method ResolvePrefix(e: Name, full: Link) returns (r: Option<Link>)
      ensures r == Resolve(engine.Value(), e, full)
    {
      var link := ExtractLink(full);
      if link.None? {
        return None;
      }
      var original: Link;
      if '.' in link.value {
        var x := engine.GetResourceByLink(e, link.value);
        if x.None? {
          return None;
        }
        original := x.value.Original();
      } else {
        if link.value !in engine.namespaces {
          return None;
        }
        original := ElementLink(engine.namespaces[link.value].element);
      }
      r := Some(original + full[|link.value|..]);
    }

    method ApplyResource(e: Name, prefix: Link, item: ResourceItem, left: map<Key, Uuid>)
      returns (refusal: Option<Refusal>, rest: map<Key, Uuid>)
      modifies this, engine
      ensures match ResourceStep(Progress(old(db), old(engine.Value()), left), e, prefix, item)
              case Ok(q) => refusal.None? && Progress(db, engine.Value(), rest) == q
              case Err(_) => refusal.Some?
    {
      rest := left;
      var key, row := (prefix, item.name), ResourceRow(e, prefix, item.name, item.value);
      if key in left {
        rest := left - {key};
        db := db.(resources := db.resources[left[key] := row]);
        refusal := None;
      } else {
        if item.uuid in db.resources {
          return Some(RowExists), rest;
        }
        db := db.(resources := db.resources[item.uuid := row]);
        refusal := engine.AddResource(e, row.Link(), Own(item.uuid, row.Link()));
      }
    }

    method ApplyGroup(e: Name, group: Group, left: map<Key, Uuid>) returns (refusal: Option<Refusal>, rest: map<Key, Uuid>)
      modifies this, engine
      ensures match GroupStep(Progress(old(db), old(engine.Value()), left), e, group)
              case Ok(q) => refusal.None? && Progress(db, engine.Value(), rest) == q
              case Err(_) => refusal.Some?
    {
      rest := left;
      var prefix := ResolvePrefix(e, group.prefix);
      if prefix.None? {
        return Some(BadLink), rest;
      }
      ghost var p := Progress(db, engine.Value(), left);
      var i := 0;
      while i < |group.items|
        invariant i <= |group.items|
        invariant ResourceSteps(p, e, prefix.value, group.items[..i]) == Ok(Progress(db, engine.Value(), rest))
      {
        assert group.items[..i + 1][..i] == group.items[..i];
        refusal, rest := ApplyResource(e, prefix.value, group.items[i], rest);
        if refusal.Some? {
          ResourceStepsErr(p, e, prefix.value, group.items, i + 1);
          return;
        }
        i := i + 1;
      }
      assert group.items[..i] == group.items;
      refusal := None;
    }

    /** The database deletes the imports that came from a deleted resource. */
    method DeleteResources(e: Name, left: map<Key, Uuid>) returns (refusal: Option<Refusal>)
      requires Steady(db, engine.Value(), e) && LeftOwned(db, left, e)
      modifies this, engine
      ensures Follows(refusal, Value(), DropResources(Progress(old(db), old(engine.Value()), left), e))
    {
      var keys := left.Keys;
      ghost var s0, done: set<Key> := Value(), {};
      NothingDeleted(s0, e, left);
      while keys != {}
        invariant keys == left.Keys - done && done <= left.Keys
        invariant Deleting(s0, Value(), e, left, done)
      {
        var k :| k in keys;
        refusal := DeleteResource(e, k, left[k], s0, left, done);
        if refusal.Some? {
          return;
        }
        keys := keys - {k};
        done := done + {k};
      }
      assert done == left.Keys;
      AllDeleted(s0, Value(), e, left);
      refusal := None;
    }

    method DeleteResource(e: Name, k: Key, u: Uuid, ghost s0: State, ghost left: map<Key, Uuid>, ghost done: set<Key>)
      returns (refusal: Option<Refusal>)
      requires Steady(s0.db, s0.ix, e) && LeftOwned(s0.db, left, e)
      requires k in left && u == left[k] && k !in done && done <= left.Keys && Deleting(s0, Value(), e, left, done)
      modifies this, engine
      ensures if refusal.None? then Deleting(s0, Value(), e, left, done + {k})
              else DropResources(Progress(s0.db, s0.ix, left), e).Err?
    {
      DeletingStep(s0, Value(), e, left, done, k);
      refusal := engine.DeleteResource(e, ResourceLink(k.0, k.1));
      if refusal.Some? {
        return;
      }
      if Provider(k.0) !in engine.namespaces {
        return Some(NamespaceNotFound);
      }
      db := db.(resources := db.resources - {u}, imports := map i | i in db.imports && db.imports[i].source != u :: db.imports[i]);
    }

    method ApplyResources(e: Name, groups: seq<Group>) returns (refusal: Option<Refusal>)
      requires Steady(db, engine.Value(), e)
      modifies this, engine
      ensures Follows(refusal, Value(), ResourcesApplied(old(Value()), e, groups))
    {
      var left := ExistingResources(e);
      ghost var p := ResourceStart(Value(), e);
      var i := 0;
      while i < |groups|
        invariant i <= |groups|
        invariant GroupSteps(p, e, groups[..i]) == Ok(Progress(db, engine.Value(), left))
      {
        assert groups[..i + 1][..i] == groups[..i];
        refusal, left := ApplyGroup(e, groups[i], left);
        if refusal.Some? {
          GroupStepsErr(p, e, groups, i + 1);
          return;
        }
        i := i + 1;
      }
      assert groups[..i] == groups;
      GroupStepsKeep(old(Value()), e, groups);
      refusal := DeleteResources(e, left);
    }

    // ---- Exports ----

    method ExistingExports(e: Name) returns (left: map<string, Uuid>)
      requires Sound(db)
      ensures left == ByKey(ExportTable(db, e))
    {
      ghost var table := ExportTable(db, e);
      left := map[];
      var todo := db.exports.Keys;
      while todo != {}
        invariant todo <= db.exports.Keys
        invariant forall n | n in left :: left[n] in table && left[n] !in todo && table[left[n]].0 == n
        invariant forall u | u in table && u !in todo :: table[u].0 in left
      {
        var u :| u in todo;
        if db.exports[u].owner == e {
          left := left[db.exports[u].name := u];
        }
        todo := todo - {u};
      }
      OneExportEach(db, e);
      IsByKey(table, left);
    }

    method ApplyExport(e: Name, item: ExportItem, left: map<string, Uuid>) returns (refusal: Option<Refusal>, rest: map<string, Uuid>)
      modifies this, engine
      ensures match ExportStep(Progress(old(db), old(engine.Value()), left), e, item)
              case Ok(q) => refusal.None? && Progress(db, engine.Value(), rest) == q
              case Err(_) => refusal.Some?
    {
      rest := left;
      var row := ExportRow(e, item.name, item.link);
      if item.name in left {
        rest := left - {item.name};
        db := db.(exports := db.exports[left[item.name] := row]);
        refusal := None;
      } else {
        if item.uuid in db.exports || ExportNamed(db, e, item.name) {
          return Some(RowExists), rest;
        }
        db := db.(exports := db.exports[item.uuid := row]);
        refusal := engine.AddResourceByExport(e, item.link);
      }
    }

    method DeleteExports(e: Name, left: map<string, Uuid>) returns (refusal: Option<Refusal>)
      requires LeftExports(db, Progress(db, engine.Value(), left), e)
      modifies this, engine
      ensures Follows(refusal, Value(), DropExports(Progress(old(db), old(engine.Value()), left)))
    {
      var names := left.Keys;
      ghost var s0, done: set<string> := Value(), {};
      NoExportDeleted(s0, left);
      while names != {}
        invariant names == left.Keys - done && done <= left.Keys
        invariant ExportsDeleting(s0, Value(), left, done)
      {
        var n :| n in names;
        refusal := DeleteExport(e, n, left[n], s0, left, done);
        if refusal.Some? {
          return;
        }
        names := names - {n};
        done := done + {n};
      }
      assert done == left.Keys;
      AllExportsDeleted(s0, Value(), left);
      refusal := None;
    }

    method DeleteExport(e: Name, n: string, u: Uuid, ghost s0: State, ghost left: map<string, Uuid>, ghost done: set<string>)
      returns (refusal: Option<Refusal>)
      requires LeftExports(s0.db, Progress(s0.db, s0.ix, left), e)
      requires n in left && u == left[n] && n !in done && done <= left.Keys && ExportsDeleting(s0, Value(), left, done)
      modifies this, engine
      ensures if refusal.None? then ExportsDeleting(s0, Value(), left, done + {n})
              else DropExports(Progress(s0.db, s0.ix, left)).Err?
    {
      ExportsDeletingStep(s0, Value(), e, left, done, n);
      refusal := engine.DeleteResourceByExport(db.exports[u].link);
      if refusal.None? {
        db := db.(exports := db.exports - {u});
      }
    }

    method ApplyExports(e: Name, items: seq<ExportItem>) returns (refusal: Option<Refusal>)
      requires Sound(db) && e in db.elements
      modifies this, engine
      ensures Follows(refusal, Value(), ExportsApplied(old(Value()), e, items))
    {
      var left := ExistingExports(e);
      ghost var p := ExportStart(Value(), e);
      var i := 0;
      while i < |items|
        invariant i <= |items|
        invariant ExportSteps(p, e, items[..i]) == Ok(Progress(db, engine.Value(), left))
      {
        assert items[..i + 1][..i] == items[..i];
        refusal, left := ApplyExport(e, items[i], left);
        if refusal.Some? {
          ExportStepsErr(p, e, items, i + 1);
          return;
        }
        i := i + 1;
      }
      assert items[..i] == items;
      ExportStepsKeep(old(Value()), e, items);
      refusal := DeleteExports(e, left);
    }

    // ---- Manifests ----

    method ApplyElement(m: Manifest) returns (refusal: Option<Refusal>)
      requires Sound(db) && Indexes(engine.Value(), db) && m.name in db.elements
      modifies this, engine
      ensures Follows(refusal, Value(), Applied(old(Value()), m))
    {
      ghost var s := Value();
      IndexesAreSteady(s, m.name);
      refusal := ApplyImports(m.name, m.imports);
      if refusal.Some? {
        return;
      }
      ghost var a := Value();
      ImportPhase(s, m.name, m.imports);
      refusal := ApplyResources(m.name, m.groups);
      if refusal.Some? {
        return;
      }
      ResourcePhaseKeeps(a, m.name, m.groups);
      refusal := ApplyExports(m.name, m.exports);
    }

    /** Installing follows the specification on the database as loaded, and leaves the
        engine with the index of the resulting database. */
    method Install(m: Manifest) returns (refusal: Option<Refusal>)
      requires Sound(db)
      modifies this, engine
      ensures if Loadable(old(db))
              then forall ix :: Indexes(ix, old(db)) ==> Follows(refusal, Value(), Installed(State(old(db), ix), m))
              else refusal.Some?
      ensures refusal.None? ==> Sound(db) && Indexes(engine.Value(), db)
    {
      if m.name in db.elements {
        return Some(ElementExists);
      }
      refusal := engine.LoadFromDatabase(db);
      if refusal.Some? {
        return;
      }
      ghost var s := Value();
      OnlyIndex(s);
      if m.uuid in db.elements.Values {
        return Some(RowExists);
      }
      db := db.(elements := db.elements[m.name := m.uuid]);
      refusal := engine.AddElement(m.name);
      if refusal.Some? {
        return;
      }
      NewElementIndexed(s, m);
      refusal := ApplyElement(m);
      if refusal.None? {
        InstallAgreesWithReload(s, m);
      }
    }

    method Upgrade(m: Manifest) returns (refusal: Option<Refusal>)
      requires Sound(db)
      modifies this, engine
      ensures if Loadable(old(db))
              then forall ix :: Indexes(ix, old(db)) ==> Follows(refusal, Value(), Upgraded(State(old(db), ix), m))
              else refusal.Some?
    {
      if m.name !in db.elements {
        return Some(ElementMissing);
      }
      refusal := engine.LoadFromDatabase(db);
      if refusal.Some? {
        return;
      }
      OnlyIndex(Value());
      refusal := ApplyElement(m);
    }
  }

  lemma OnlyIndex(s: State)
    requires Indexes(s.ix, s.db)
    ensures Loadable(s.db) && forall ix :: Indexes(ix, s.db) ==> ix == s.ix
  {
    IndexedIsLoadable(s.ix, s.db);
    forall ix | Indexes(ix, s.db)
      ensures ix == s.ix
    {
      IndexUnique(ix, s.ix, s.db);
    }
  }

  ghost function ExportLinks(db: Database, us: set<Uuid>): set<Link> {
    set u | u in us && u in db.exports :: db.exports[u].link
  }

  /** Some of the left-over exports are deleted, each with a link of its own. */
  ghost predicate ExportsDeleting(s0: State, s: State, left: map<string, Uuid>, done: set<string>)
    requires done <= left.Keys
  {
    var us := Uuids(left, done);
    && s.db == s0.db.(exports := s0.db.exports - us)
    && s.ix == s0.ix.(exports := s0.ix.exports - ExportLinks(s0.db, us))
    && ExportLinks(s0.db, us) <= s0.ix.exports.Keys
    && (forall u, v | u in us && v in us && u in s0.db.exports && v in s0.db.exports
                      && s0.db.exports[u].link == s0.db.exports[v].link :: u == v)
  }

  lemma NoExportDeleted(s: State, left: map<string, Uuid>)
    ensures ExportsDeleting(s, s, left, {})
  {
    assert Uuids(left, {}) == {} && ExportLinks(s.db, {}) == {};
    assert s.db.exports - {} == s.db.exports && s.ix.exports - {} == s.ix.exports;
  }

  lemma AllExportsDeleted(s0: State, s: State, left: map<string, Uuid>)
    requires ExportsDeleting(s0, s, left, left.Keys)
    ensures DropExports(Progress(s0.db, s0.ix, left)) == Ok(s)
  {
    assert Uuids(left, left.Keys) == left.Values;
    assert ExportLinks(s0.db, left.Values) == LeftLinks(Progress(s0.db, s0.ix, left));
  }

  lemma ExportsDeletingStep(s0: State, s: State, e: Name, left: map<string, Uuid>, done: set<string>, n: string)
    requires LeftExports(s0.db, Progress(s0.db, s0.ix, left), e)
    requires n in left && n !in done && done <= left.Keys && ExportsDeleting(s0, s, left, done)
    ensures left[n] in s.db.exports
    ensures var u := left[n];
            match Elements.DeleteExport(s.ix, s.db.exports[u].link)
            case Ok(ix) => ExportsDeleting(s0, State(s.db.(exports := s.db.exports - {u}), ix), left, done + {n})
            case Err(_) => DropExports(Progress(s0.db, s0.ix, left)).Err?
  {
    var u, us := left[n], Uuids(left, done);
    forall m | m in done
      ensures left[m] != u
    {
      assert s0.db.exports[left[m]].name == m && s0.db.exports[u].name == n;
    }
    var link := s0.db.exports[u].link;
    if link in s.ix.exports {
      assert Uuids(left, done + {n}) == us + {u};
      assert ExportLinks(s0.db, us + {u}) == ExportLinks(s0.db, us) + {link};
      assert s0.db.exports - us - {u} == s0.db.exports - (us + {u});
      assert s0.ix.exports - ExportLinks(s0.db, us) - {link} == s0.ix.exports - (ExportLinks(s0.db, us) + {link});
    } else if link in s0.ix.exports {
      var v :| v in us && v in s0.db.exports && s0.db.exports[v].link == link;
      assert !LeftDistinct(Progress(s0.db, s0.ix, left));
    } else {
      assert link in LeftLinks(Progress(s0.db, s0.ix, left));
    }
  }

  lemma {:induction false} ExportStepsErr(p: Progress<string>, e: Name, items: seq<ExportItem>, i: nat)
    requires i <= |items| && ExportSteps(p, e, items[..i]).Err?
    ensures ExportSteps(p, e, items).Err?
    decreases |items| - i
  {
    if i < |items| {
      assert items[..i + 1][..i] == items[..i];
      ExportStepsErr(p, e, items, i + 1);
    } else {
      assert items[..i] == items;
    }
  }

  ghost function KeyLinks(keys: set<Key>): set<Link> {
    set k | k in keys :: ResourceLink(k.0, k.1)
  }

  ghost function Uuids<K>(left: map<K, Uuid>, keys: set<K>): set<Uuid>
    requires keys <= left.Keys
  {
    set k | k in keys :: left[k]
  }

  ghost function WithoutRows(db: Database, us: set<Uuid>): Database {
    db.(resources := db.resources - us, imports := db.imports - Sourced(db, us))
  }

  /** Some of the left-over resources are deleted. */
  ghost predicate Deleting(s0: State, s: State, e: Name, left: map<Key, Uuid>, done: set<Key>)
    requires ElementLink(e) in s0.ix.namespaces && done <= left.Keys
  {
    && s.db == WithoutRows(s0.db, Uuids(left, done))
    && s.ix == s0.ix.(namespaces := Cut(s0.ix.namespaces, e, KeyLinks(done)))
    && (forall k | k in done ::
          Lookup(s0.ix.namespaces, e, ResourceLink(k.0, k.1)).Some? && Provider(k.0) in s0.ix.namespaces)
  }

  lemma NothingDeleted(s: State, e: Name, left: map<Key, Uuid>)
    requires ElementLink(e) in s.ix.namespaces
    ensures Deleting(s, s, e, left, {})
  {
    CutNothing(s.ix.namespaces, e);
    assert KeyLinks({}) == {} && Uuids(left, {}) == {};
    assert s.db.resources - {} == s.db.resources && s.db.imports - Sourced(s.db, {}) == s.db.imports;
  }

  lemma AllDeleted(s0: State, s: State, e: Name, left: map<Key, Uuid>)
    requires ElementLink(e) in s0.ix.namespaces && Deleting(s0, s, e, left, left.Keys)
    ensures DropResources(Progress(s0.db, s0.ix, left), e) == Ok(s)
  {
    assert Uuids(left, left.Keys) == left.Values;
    assert KeyLinks(left.Keys) == set k | k in left :: ResourceLink(k.0, k.1);
    assert Sourced(s0.db, left.Values) == set u | u in s0.db.imports && s0.db.imports[u].source in left.Values;
  }

  lemma DeletingStep(s0: State, s: State, e: Name, left: map<Key, Uuid>, done: set<Key>, k: Key)
    requires Steady(s0.db, s0.ix, e) && LeftOwned(s0.db, left, e)
    requires k in left && k !in done && done <= left.Keys && Deleting(s0, s, e, left, done)
    ensures var link, u := ResourceLink(k.0, k.1), left[k];
            && Lookup(s.ix.namespaces, e, link) == Lookup(s0.ix.namespaces, e, link)
            && Cut(s.ix.namespaces, e, {link}) == Cut(s0.ix.namespaces, e, KeyLinks(done + {k}))
            && s.db.(resources := s.db.resources - {u},
                     imports := map i | i in s.db.imports && s.db.imports[i].source != u :: s.db.imports[i]) ==
               WithoutRows(s0.db, Uuids(left, done + {k}))
  {
    var link := ResourceLink(k.0, k.1);
    LinkNotCutYet(s0, e, left, k, done);
    LookupCut(s0.ix.namespaces, e, KeyLinks(done));
    CutOnce(s0.ix.namespaces, e, KeyLinks(done), link);
    assert KeyLinks(done + {k}) == KeyLinks(done) + {link};
    DeleteOne(s0.db, left, done, k);
  }

  lemma DeleteOne(db: Database, left: map<Key, Uuid>, done: set<Key>, k: Key)
    requires done <= left.Keys && k in left
    ensures var now, u := WithoutRows(db, Uuids(left, done)), left[k];
            now.(resources := now.resources - {u}, imports := map i | i in now.imports && now.imports[i].source != u :: now.imports[i]) ==
            WithoutRows(db, Uuids(left, done + {k}))
  {
    assert Uuids(left, done + {k}) == Uuids(left, done) + {left[k]};
  }

  /** Stored resources have links of their own. */
  lemma LinkNotCutYet(s: State, e: Name, left: map<Key, Uuid>, k: Key, done: set<Key>)
    requires Steady(s.db, s.ix, e) && LeftOwned(s.db, left, e) && k in left && k !in done && done <= left.Keys
    ensures ResourceLink(k.0, k.1) !in KeyLinks(done)
  {
    var rows := Rows(s.db);
    assert LinkedAt(s.ix.namespaces, rows, e);
    forall j | j in done
      ensures ResourceLink(j.0, j.1) != ResourceLink(k.0, k.1)
    {
      assert rows[ResourceId(left[j])] == ListedAt(s.db, ResourceId(left[j]));
      assert rows[ResourceId(left[k])] == ListedAt(s.db, ResourceId(left[k]));
    }
  }

  lemma {:induction false} ResourceStepsErr(p: Progress<Key>, e: Name, prefix: Link, items: seq<ResourceItem>, i: nat)
    requires i <= |items| && ResourceSteps(p, e, prefix, items[..i]).Err?
    ensures ResourceSteps(p, e, prefix, items).Err?
    decreases |items| - i
  {
    if i < |items| {
      assert items[..i + 1][..i] == items[..i];
      ResourceStepsErr(p, e, prefix, items, i + 1);
    } else {
      assert items[..i] == items;
    }
  }

  lemma {:induction false} GroupStepsErr(p: Progress<Key>, e: Name, groups: seq<Group>, i: nat)
    requires i <= |groups| && GroupSteps(p, e, groups[..i]).Err?
    ensures GroupSteps(p, e, groups).Err?
    decreases |groups| - i
  {
    if i < |groups| {
      assert groups[..i + 1][..i] == groups[..i];
      GroupStepsErr(p, e, groups, i + 1);
    } else {
      assert groups[..i] == groups;
    }
  }

  lemma NotCutYet(e: Name, n: string, done: set<string>)
    requires n !in done
    ensures ImportLink(e, n) !in ImportLinks(e, done)
  {
    if ImportLink(e, n) in ImportLinks(e, done) {
      var m :| m in done && ImportLink(e, n) == ImportLink(e, m);
      ImportLinkInjective(e, n, m);
    }
  }

  lemma {:induction false} ImportStepsErr(p: Progress<string>, e: Name, items: seq<ImportItem>, i: nat)
    requires i <= |items| && ImportSteps(p, e, items[..i]).Err?
    ensures ImportSteps(p, e, items).Err?
    decreases |items| - i
  {
    if i < |items| {
      assert items[..i + 1][..i] == items[..i];
      ImportStepsErr(p, e, items, i + 1);
    } else {
      assert items[..i] == items;
    }
  }
}
