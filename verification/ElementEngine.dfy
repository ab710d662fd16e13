/** The element engine: an index of all installed elements, kept in memory. */
module ElementEngine {
  import opened Common
  import opened Keyed
  import opened Links
  import opened Elements

  /** A refused operation leaves the engine alone. */
  ghost predicate Outcome(refusal: Option<Refusal>, before: Index, after: Index, spec: Result<Index, Refusal>) {
    match spec
    case Ok(ix) => refusal.None? && after == ix
    case Err(e) => refusal == Some(e) && after == before
  }

  class Engine {
    var namespaces: Namespaces
    var exports: map<Link, Entry>

    ghost function Value(): Index
      reads this
    {
      Index(namespaces, exports)
    }

    constructor ()
      ensures Value() == Index(map[], map[])
    {
      namespaces, exports := map[], map[];
    }

    method AddElement(n: Name) returns (refusal: Option<Refusal>)
      modifies this
      ensures Outcome(refusal, old(Value()), Value(), Elements.AddElement(old(Value()), n))
    {
      if ElementLink(n) in namespaces {
        return Some(ElementExists);
      }
      namespaces := namespaces[ElementLink(n) := Namespace(n, map[])];
      refusal := None;
    }

    method AddResource(n: Name, link: Link, x: Entry) returns (refusal: Option<Refusal>)
      modifies this
      ensures Outcome(refusal, old(Value()), Value(), AddEntry(old(Value()), n, link, x))
    {
      var at := ElementLink(n);
      if at !in namespaces {
        return Some(NamespaceNotFound);
      }
      if link in namespaces[at].entries {
        return Some(LinkExists);
      }
      namespaces := namespaces[at := namespaces[at].(entries := namespaces[at].entries[link := x])];
      refusal := None;
    }

    method DeleteResource(n: Name, link: Link) returns (refusal: Option<Refusal>)
      modifies this
      ensures Outcome(refusal, old(Value()), Value(), DeleteEntry(old(Value()), n, link))
    {
      var at := ElementLink(n);
      if at !in namespaces {
        return Some(NamespaceNotFound);
      }
      if link !in namespaces[at].entries {
        return Some(LinkMissing);
      }
      namespaces := namespaces[at := namespaces[at].(entries := namespaces[at].entries - {link})];
      refusal := None;
    }

    method GetResourceByLink(n: Name, link: Link) returns (r: Option<Entry>)
      ensures r == Lookup(namespaces, n, ClearParameters(link))
    {
      var at, clear := ElementLink(n), ClearParameters(link);
      if at !in namespaces || clear !in namespaces[at].entries {
        return None;
      }
      r := Some(namespaces[at].entries[clear]);
    }

    method AddResourceByExport(n: Name, link: Link) returns (refusal: Option<Refusal>)
      modifies this
      ensures Outcome(refusal, old(Value()), Value(), AddExport(old(Value()), n, link))
    {
      var x := GetResourceByLink(n, link);
      if x.None? {
        return Some(LinkMissing);
      }
      if link in exports {
        return Some(ExportExists);
      }
      exports := exports[link := x.value];
      refusal := None;
    }

    method DeleteResourceByExport(link: Link) returns (refusal: Option<Refusal>)
      modifies this
      ensures Outcome(refusal, old(Value()), Value(), DeleteExport(old(Value()), link))
    {
      if link !in exports {
        return Some(ExportMissing);
      }
      exports := exports - {link};
      refusal := None;
    }

    method LoadElements(db: Database)
      requires Value() == Index(map[], map[])
      modifies this
      ensures exports == map[] && Loading(namespaces, db, db.imports.Keys, db.resources.Keys)
    {
      var names := db.elements.Keys;
      while names != {}
        invariant names <= db.elements.Keys && exports == map[]
        invariant Named(namespaces, db.elements.Keys - names)
        invariant Unfilled(namespaces)
      {
        var n :| n in names;
        forall m | m in db.elements.Keys - names
          ensures ElementLink(m) != ElementLink(n)
        {
          if ElementLink(m) == ElementLink(n) {
            ElementLinkInjective(m, n);
          }
        }
        assert ElementLink(n) !in namespaces;
        var refusal := AddElement(n);
        names := names - {n};
      }
      LoadingStart(namespaces, db);
    }

    method LoadImport(db: Database, u: Uuid, ghost todo: set<Uuid>) returns (refusal: Option<Refusal>)
      requires Sound(db) && u in todo && u in db.imports && Loading(namespaces, db, todo, db.resources.Keys)
      modifies this
      ensures exports == old(exports)
      ensures if refusal.None? then Loading(namespaces, db, todo - {u}, db.resources.Keys) else !Loadable(db)
    {
      var row := db.imports[u];
      var x := ImportListed(row, db.resources[row.source].Link());
      LoadingImport(Value(), db, todo, db.resources.Keys, u, x);
      refusal := AddResource(row.owner, x.link, x.entry);
    }

    method LoadImports(db: Database) returns (refusal: Option<Refusal>)
      requires Sound(db) && Loading(namespaces, db, db.imports.Keys, db.resources.Keys)
      modifies this
      ensures exports == old(exports)
      ensures if refusal.None? then Loading(namespaces, db, {}, db.resources.Keys) else !Loadable(db)
    {
      var todo := db.imports.Keys;
      while todo != {}
        invariant todo <= db.imports.Keys && exports == old(exports)
        invariant Loading(namespaces, db, todo, db.resources.Keys)
      {
        var u :| u in todo;
        refusal := LoadImport(db, u, todo);
        if refusal.Some? {
          return;
        }
        todo := todo - {u};
      }
      refusal := None;
    }

    method LoadResources(db: Database) returns (refusal: Option<Refusal>)
      requires Sound(db) && Loading(namespaces, db, {}, db.resources.Keys)
      modifies this
      ensures exports == old(exports)
      ensures if refusal.None? then Loading(namespaces, db, {}, {}) else !Loadable(db)
    {
      var todo := db.resources.Keys;
      while todo != {}
        invariant todo <= db.resources.Keys && exports == old(exports)
        invariant Loading(namespaces, db, {}, todo)
      {
        var u :| u in todo;
        var x := ResourceListed(u, db.resources[u]);
        LoadingResource(Value(), db, {}, todo, u, x);
        refusal := AddResource(x.owner, x.link, x.entry);
        if refusal.Some? {
          return;
        }
        todo := todo - {u};
      }
      refusal := None;
    }

    method LoadExports(db: Database) returns (refusal: Option<Refusal>)
      requires exports == map[] && Filed(namespaces, db)
      modifies this
      ensures if refusal.None? then Indexes(Value(), db) else !Loadable(db)
    {
      var todo := db.exports.Keys;
      while todo != {}
        invariant todo <= db.exports.Keys && namespaces == old(namespaces)
        invariant Exported(namespaces, exports, db.exports - todo)
      {
        var u :| u in todo;
        var row := db.exports[u];
        LoadingExport(Value(), db, todo, u);
        refusal := AddResourceByExport(row.owner, row.link);
        if refusal.Some? {
          return;
        }
        todo := todo - {u};
      }
      assert db.exports - {} == db.exports;
      refusal := None;
    }

    /** Rebuilding the index: it succeeds exactly on the databases that have one. */
    method LoadFromDatabase(db: Database) returns (refusal: Option<Refusal>)
      requires Sound(db)
      modifies this
      ensures refusal.None? <==> Loadable(db)
      ensures refusal.None? ==> Indexes(Value(), db)
    {
      namespaces, exports := map[], map[];
      LoadElements(db);
      refusal := LoadImports(db);
      if refusal.Some? {
        return;
      }
      refusal := LoadResources(db);
      if refusal.Some? {
        return;
      }
      LoadedAll(namespaces, db);
      refusal := LoadExports(db);
      if refusal.None? {
        IndexedIsLoadable(Value(), db);
      }
    }
  }

  ghost predicate Unfilled(ns: Namespaces) {
    forall l | l in ns :: ns[l].entries == map[]
  }

  ghost function RowSet(imports: set<Uuid>, resources: set<Uuid>): (r: set<RowId>)
    ensures forall u :: ImportId(u) in r <==> u in imports
    ensures forall u :: ResourceId(u) in r <==> u in resources
  {
    ImportIds(imports) + ResourceIds(resources)
  }

  /** All rows are entered but those of these imports and resources. */
  ghost predicate Loading(ns: Namespaces, db: Database, imports: set<Uuid>, resources: set<Uuid>) {
    var rows := Rows(db) - RowSet(imports, resources);
    Named(ns, db.elements.Keys) && Linked(ns, rows) && Entered(ns, rows)
  }

  lemma LoadingStart(ns: Namespaces, db: Database)
    requires Named(ns, db.elements.Keys - {}) && Unfilled(ns)
    ensures Loading(ns, db, db.imports.Keys, db.resources.Keys)
  {
    assert db.elements.Keys - {} == db.elements.Keys;
    var rows := Rows(db) - RowSet(db.imports.Keys, db.resources.Keys);
    forall i
      ensures i !in rows
    {
      match i
      case ImportId(u) =>
      case ResourceId(u) =>
    }
  }

  /** One more row: if its link is free the row is entered, else the database has no index. */
  lemma LoadingRow(ix: Index, db: Database, rows: Catalogue, i: RowId, x: Listed)
    requires Named(ix.namespaces, db.elements.Keys) && Linked(ix.namespaces, rows) && Entered(ix.namespaces, rows)
    requires forall j | j in rows :: j in Rows(db) && rows[j] == Rows(db)[j]
    requires i in Rows(db) && Rows(db)[i] == x && i !in rows && x.owner in db.elements
    ensures match AddEntry(ix, x.owner, x.link, x.entry)
            case Ok(next) =>
              Named(next.namespaces, db.elements.Keys) && Linked(next.namespaces, rows[i := x]) && Entered(next.namespaces, rows[i := x])
            case Err(_) => !Loadable(db)
  {
    if Lookup(ix.namespaces, x.owner, x.link).Some? {
      assert LinkedAt(ix.namespaces, rows, x.owner);
      assert Lists(rows, x.owner, x.link);
      var j :| j in rows && rows[j].owner == x.owner && rows[j].link == x.link;
      assert !LinksDistinct(Rows(db), x.owner);
    } else {
      FiledPut(ix.namespaces, rows, i, x);
    }
  }

  lemma LessToImport(imports: set<Uuid>, resources: set<Uuid>, u: Uuid)
    ensures RowSet(imports, resources) - {ImportId(u)} == RowSet(imports - {u}, resources)
  {
    assert ImportIds(imports - {u}) == ImportIds(imports) - {ImportId(u)};
  }

  lemma LessToEnter(imports: set<Uuid>, resources: set<Uuid>, u: Uuid)
    ensures RowSet(imports, resources) - {ResourceId(u)} == RowSet(imports, resources - {u})
  {
    assert ResourceIds(resources - {u}) == ResourceIds(resources) - {ResourceId(u)};
  }

  lemma LoadingImport(ix: Index, db: Database, imports: set<Uuid>, resources: set<Uuid>, u: Uuid, x: Listed)
    requires Sound(db) && Loading(ix.namespaces, db, imports, resources) && u in imports && u in db.imports
    requires x == ImportListed(db.imports[u], db.resources[db.imports[u].source].Link())
    ensures match AddEntry(ix, x.owner, x.link, x.entry)
            case Ok(next) => Loading(next.namespaces, db, imports - {u}, resources)
            case Err(_) => !Loadable(db)
  {
    var all, i, todo := Rows(db), ImportId(u), RowSet(imports, resources);
    assert HasRow(db, i) && ListedAt(db, i) == x;
    LoadingRow(ix, db, all - todo, i, x);
    RestoreOne(all, todo, i);
    LessToImport(imports, resources, u);
  }

  lemma LoadingResource(ix: Index, db: Database, imports: set<Uuid>, resources: set<Uuid>, u: Uuid, x: Listed)
    requires Sound(db) && Loading(ix.namespaces, db, imports, resources) && u in resources && u in db.resources
    requires x == ResourceListed(u, db.resources[u])
    ensures match AddEntry(ix, x.owner, x.link, x.entry)
            case Ok(next) => Loading(next.namespaces, db, imports, resources - {u})
            case Err(_) => !Loadable(db)
  {
    var all, i, todo := Rows(db), ResourceId(u), RowSet(imports, resources);
    assert HasRow(db, i) && ListedAt(db, i) == x;
    LoadingRow(ix, db, all - todo, i, x);
    RestoreOne(all, todo, i);
    LessToEnter(imports, resources, u);
  }

  lemma LoadedAll(ns: Namespaces, db: Database)
    requires Loading(ns, db, {}, {})
    ensures Filed(ns, db)
  {
    forall i
      ensures i !in RowSet({}, {})
    {
      match i
      case ImportId(u) =>
      case ResourceId(u) =>
    }
    assert Rows(db) - RowSet({}, {}) == Rows(db);
  }

  lemma LoadingExport(ix: Index, db: Database, todo: set<Uuid>, u: Uuid)
    requires Filed(ix.namespaces, db) && Exported(ix.namespaces, ix.exports, db.exports - todo)
    requires u in todo && u in db.exports
    ensures match AddExport(ix, db.exports[u].owner, db.exports[u].link)
            case Ok(next) => Exported(next.namespaces, next.exports, db.exports - (todo - {u}))
            case Err(_) => !Loadable(db)
  {
    var row := db.exports[u];
    var clear := ClearParameters(row.link);
    if Lookup(ix.namespaces, row.owner, clear).None? {
      assert LinkedAt(ix.namespaces, Rows(db), row.owner);
      assert !Lists(Rows(db), row.owner, clear);
    } else if row.link in ix.exports {
      var v :| v in db.exports - todo && db.exports[v].link == row.link;
      assert v != u;
    } else {
      ExportedPut(ix, db.exports - todo, u, row);
      RestoreOne(db.exports, todo, u);
    }
  }
}
