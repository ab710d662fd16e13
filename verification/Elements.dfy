/**
 Elements, their imports, resources and exports: the database rows, the in-memory index
 of the element engine, and what it means that the index agrees with the rows.
 */
module Elements {
  import opened Common
  import opened Documents
  import opened Links

  /** Element names are unique in the database and stand for the element. */
  type Name = string

  // ---- Database rows ----

  datatype ImportRow = ImportRow(owner: Name, fromElement: Name, source: Uuid, name: string)

  datatype ResourceRow = ResourceRow(owner: Name, prefix: Link, name: string, value: Document) {
    function Link(): Link { ResourceLink(prefix, name) }
  }

  datatype ExportRow = ExportRow(owner: Name, name: string, link: Link)

  datatype Database = Database(elements: map<Name, Uuid>, imports: map<Uuid, ImportRow>,
                               resources: map<Uuid, ResourceRow>, exports: map<Uuid, ExportRow>)

  /** The foreign keys, and the unique names of an element's imports and exports. */
  ghost predicate Sound(db: Database) {
    && (forall u | u in db.imports ::
          db.imports[u].owner in db.elements && db.imports[u].fromElement in db.elements && db.imports[u].source in db.resources)
    && (forall u | u in db.resources :: db.resources[u].owner in db.elements)
    && (forall u | u in db.exports :: db.exports[u].owner in db.elements)
    && (forall u, v | u in db.imports && v in db.imports &&
                      db.imports[u].owner == db.imports[v].owner && db.imports[u].name == db.imports[v].name :: u == v)
    && (forall u, v | u in db.exports && v in db.exports &&
                      db.exports[u].owner == db.exports[v].owner && db.exports[u].name == db.exports[v].name :: u == v)
  }

  // ---- The engine's index ----

  /** What a namespace holds: a resource, or an import standing for a resource elsewhere.
      Models are equal when their identifiers are; the link is fixed at creation. */
  datatype Entry = Own(uuid: Uuid, link: Link) | Imported(source: Uuid, origin: Link) {
    /** `original.link`. */
    function Original(): Link { if Own? then link else origin }
  }

  datatype Namespace = Namespace(element: Name, entries: map<Link, Entry>)

  type Namespaces = map<Link, Namespace>

  datatype Index = Index(namespaces: Namespaces, exports: map<Link, Entry>)

  function Lookup(ns: Namespaces, n: Name, k: Link): Option<Entry> {
    if ElementLink(n) in ns && k in ns[ElementLink(n)].entries then Some(ns[ElementLink(n)].entries[k]) else None
  }

  function Put(ns: Namespaces, n: Name, k: Link, x: Entry): Namespaces
    requires ElementLink(n) in ns
  {
    var at := ElementLink(n);
    ns[at := ns[at].(entries := ns[at].entries[k := x])]
  }

  function Cut(ns: Namespaces, n: Name, ks: set<Link>): Namespaces
    requires ElementLink(n) in ns
  {
    var at := ElementLink(n);
    ns[at := ns[at].(entries := ns[at].entries - ks)]
  }

  lemma ElementLinkInjective(n: Name, m: Name)
    requires ElementLink(n) == ElementLink(m)
    ensures n == m
  {
    assert ElementLink(n)[1..] == n && ElementLink(m)[1..] == m;
  }

  lemma LookupPut(ns: Namespaces, n: Name, k: Link, x: Entry)
    requires ElementLink(n) in ns
    ensures forall m, j :: Lookup(Put(ns, n, k, x), m, j) == if m == n && j == k then Some(x) else Lookup(ns, m, j)
  {
    forall m: Name | ElementLink(m) == ElementLink(n)
      ensures m == n
    {
      ElementLinkInjective(m, n);
    }
  }

  lemma LookupCut(ns: Namespaces, n: Name, ks: set<Link>)
    requires ElementLink(n) in ns
    ensures forall m, j :: Lookup(Cut(ns, n, ks), m, j) == if m == n && j in ks then None else Lookup(ns, m, j)
  {
    forall m: Name | ElementLink(m) == ElementLink(n)
      ensures m == n
    {
      ElementLinkInjective(m, n);
    }
  }

  // ---- The rows a namespace indexes ----

  datatype RowId = ImportId(uuid: Uuid) | ResourceId(uuid: Uuid)

  datatype Listed = Listed(owner: Name, link: Link, entry: Entry)

  type Catalogue = map<RowId, Listed>

  function ImportListed(row: ImportRow, origin: Link): Listed {
    Listed(row.owner, ImportLink(row.owner, row.name), Imported(row.source, origin))
  }

  function ResourceListed(u: Uuid, row: ResourceRow): Listed {
    Listed(row.owner, row.Link(), Own(u, row.Link()))
  }

  ghost predicate HasRow(db: Database, i: RowId) {
    match i
    case ImportId(u) => u in db.imports && db.imports[u].source in db.resources
    case ResourceId(u) => u in db.resources
  }

  ghost function ListedAt(db: Database, i: RowId): Listed
    requires HasRow(db, i)
  {
    match i
    case ImportId(u) => ImportListed(db.imports[u], db.resources[db.imports[u].source].Link())
    case ResourceId(u) => ResourceListed(u, db.resources[u])
  }

  ghost function RowIds(db: Database): (r: set<RowId>)
    ensures forall i :: i in r <==> HasRow(db, i)
  {
    (set u | u in db.imports && db.imports[u].source in db.resources :: ImportId(u)) +
    (set u | u in db.resources :: ResourceId(u))
  }

  ghost function Rows(db: Database): (r: Catalogue)
    ensures forall i :: i in r <==> HasRow(db, i)
    ensures forall i | HasRow(db, i) :: r[i] == ListedAt(db, i)
  {
    map i | i in RowIds(db) :: ListedAt(db, i)
  }

  lemma RowsAre(db: Database, m: Catalogue)
    requires forall i :: i in m <==> HasRow(db, i)
    requires forall i | HasRow(db, i) :: m[i] == ListedAt(db, i)
    ensures Rows(db) == m
  {
  }

  lemma RowsPutImport(db: Database, u: Uuid, row: ImportRow)
    requires row.source in db.resources
    ensures Rows(db.(imports := db.imports[u := row])) ==
            Rows(db)[ImportId(u) := ImportListed(row, db.resources[row.source].Link())]
  {
    var next := db.(imports := db.imports[u := row]);
    var m := Rows(db)[ImportId(u) := ImportListed(row, db.resources[row.source].Link())];
    forall i
      ensures i in m <==> HasRow(next, i)
      ensures HasRow(next, i) ==> m[i] == ListedAt(next, i)
    {
      match i
      case ImportId(_) =>
      case ResourceId(_) =>
    }
    RowsAre(next, m);
  }

  lemma RowsPutResource(db: Database, u: Uuid, row: ResourceRow)
    requires Sound(db)
    requires u in db.resources ==> row.owner == db.resources[u].owner && row.Link() == db.resources[u].Link()
    ensures Rows(db.(resources := db.resources[u := row])) == Rows(db)[ResourceId(u) := ResourceListed(u, row)]
  {
    var next := db.(resources := db.resources[u := row]);
    var m := Rows(db)[ResourceId(u) := ResourceListed(u, row)];
    forall i
      ensures i in m <==> HasRow(next, i)
      ensures HasRow(next, i) ==> m[i] == ListedAt(next, i)
    {
      match i
      case ImportId(_) =>
      case ResourceId(_) =>
    }
    RowsAre(next, m);
  }

  ghost function ImportIds(us: set<Uuid>): (r: set<RowId>)
    ensures forall u :: ImportId(u) in r <==> u in us
    ensures forall u :: ResourceId(u) !in r
  {
    set u | u in us :: ImportId(u)
  }

  ghost function ResourceIds(us: set<Uuid>): (r: set<RowId>)
    ensures forall u :: ResourceId(u) in r <==> u in us
    ensures forall u :: ImportId(u) !in r
  {
    set u | u in us :: ResourceId(u)
  }

  lemma RowsDropImports(db: Database, us: set<Uuid>)
    ensures Rows(db.(imports := db.imports - us)) == Rows(db) - ImportIds(us)
  {
    var next, m := db.(imports := db.imports - us), Rows(db) - ImportIds(us);
    forall i
      ensures i in m <==> HasRow(next, i)
      ensures HasRow(next, i) ==> m[i] == ListedAt(next, i)
    {
      match i
      case ImportId(_) =>
      case ResourceId(_) =>
    }
    RowsAre(next, m);
  }

  /** The import rows that go with a deleted source. */
  ghost function Sourced(db: Database, us: set<Uuid>): (r: set<Uuid>)
    ensures forall u :: u in r <==> u in db.imports && db.imports[u].source in us
  {
    set u | u in db.imports && db.imports[u].source in us
  }

  lemma RowsDropResources(db: Database, us: set<Uuid>)
    ensures Rows(db.(resources := db.resources - us, imports := db.imports - Sourced(db, us))) ==
            Rows(db) - ResourceIds(us) - ImportIds(Sourced(db, us))
  {
    var lost := Sourced(db, us);
    var next, m := db.(resources := db.resources - us, imports := db.imports - lost), Rows(db) - ResourceIds(us) - ImportIds(lost);
    forall i
      ensures i in m <==> HasRow(next, i)
      ensures HasRow(next, i) ==> m[i] == ListedAt(next, i)
    {
      match i
      case ImportId(_) =>
      case ResourceId(_) =>
    }
    RowsAre(next, m);
  }

  // ---- Agreement ----

  ghost predicate Named(ns: Namespaces, elements: set<Name>) {
    && (forall n | n in elements :: ElementLink(n) in ns)
    && (forall l | l in ns :: ns[l].element in elements && l == ElementLink(ns[l].element))
  }

  /** The links of an element's namespace are the links of its rows, one row each. */
  ghost predicate LinkedAt(ns: Namespaces, rows: Catalogue, n: Name) {
    && (forall i | i in rows && rows[i].owner == n :: Lookup(ns, n, rows[i].link).Some?)
    && (forall k | Lookup(ns, n, k).Some? :: Lists(rows, n, k))
    && LinksDistinct(rows, n)
  }

  ghost predicate Lists(rows: Catalogue, n: Name, k: Link) {
    exists i :: i in rows && rows[i].owner == n && rows[i].link == k
  }

  ghost predicate LinksDistinct(rows: Catalogue, n: Name) {
    forall i, j | i in rows && j in rows && rows[i].owner == n && rows[j].owner == n && rows[i].link == rows[j].link :: i == j
  }

  ghost predicate Entered(ns: Namespaces, rows: Catalogue) {
    forall i | i in rows :: Lookup(ns, rows[i].owner, rows[i].link) == Some(rows[i].entry)
  }

  ghost predicate Linked(ns: Namespaces, rows: Catalogue) {
    forall n :: LinkedAt(ns, rows, n)
  }

  /** The namespaces agree with the rows. */
  ghost predicate Filed(ns: Namespaces, db: Database) {
    && Named(ns, db.elements.Keys)
    && Linked(ns, Rows(db))
    && Entered(ns, Rows(db))
  }

  /** The export index agrees with the export rows: each link once, with the entry it leads to. */
  ghost predicate Exported(ns: Namespaces, exports: map<Link, Entry>, rows: map<Uuid, ExportRow>) {
    && (forall u | u in rows :: ExportedAt(ns, exports, rows[u]))
    && (forall k | k in exports :: exists u :: u in rows && rows[u].link == k)
    && (forall u, v | u in rows && v in rows && rows[u].link == rows[v].link :: u == v)
  }

  ghost predicate ExportedAt(ns: Namespaces, exports: map<Link, Entry>, row: ExportRow) {
    row.link in exports && Lookup(ns, row.owner, ClearParameters(row.link)) == Some(exports[row.link])
  }

  /** The engine agrees with the database. */
  ghost predicate Indexes(ix: Index, db: Database) {
    Filed(ix.namespaces, db) && Exported(ix.namespaces, ix.exports, db.exports)
  }

  /** A database has at most one index. */
  lemma IndexUnique(a: Index, b: Index, db: Database)
    requires Indexes(a, db) && Indexes(b, db)
    ensures a == b
  {
    var rows := Rows(db);
    forall n: Name, k: Link
      ensures Lookup(a.namespaces, n, k) == Lookup(b.namespaces, n, k)
    {
      assert LinkedAt(a.namespaces, rows, n) && LinkedAt(b.namespaces, rows, n);
    }
    forall l
      ensures l in a.namespaces <==> l in b.namespaces
      ensures l in a.namespaces ==> a.namespaces[l] == b.namespaces[l]
    {
      if l in a.namespaces || l in b.namespaces {
        var n := if l in a.namespaces then a.namespaces[l].element else b.namespaces[l].element;
        assert l == ElementLink(n) && l in a.namespaces && l in b.namespaces;
        ElementLinkInjective(a.namespaces[l].element, n);
        ElementLinkInjective(b.namespaces[l].element, n);
        SameEntries(a.namespaces, b.namespaces, n);
      }
    }
    assert a.namespaces == b.namespaces;
    assert a.exports.Keys == b.exports.Keys;
  }

  lemma SameEntries(a: Namespaces, b: Namespaces, n: Name)
    requires ElementLink(n) in a && ElementLink(n) in b
    requires forall k :: Lookup(a, n, k) == Lookup(b, n, k)
    ensures a[ElementLink(n)].entries == b[ElementLink(n)].entries
  {
    var x, y := a[ElementLink(n)].entries, b[ElementLink(n)].entries;
    forall k
      ensures k in x <==> k in y
      ensures k in x ==> x[k] == y[k]
    {
      assert Lookup(a, n, k) == Lookup(b, n, k);
    }
  }

  /** A new row whose link is not in the namespace yet: entering it keeps the agreement. */
  lemma LinkedPut(ns: Namespaces, rows: Catalogue, i: RowId, x: Listed, n: Name)
    requires ElementLink(x.owner) in ns && LinkedAt(ns, rows, n)
    requires i !in rows && Lookup(ns, x.owner, x.link).None?
    ensures LinkedAt(Put(ns, x.owner, x.link, x.entry), rows[i := x], n)
  {
    var next, rows' := Put(ns, x.owner, x.link, x.entry), rows[i := x];
    LookupPut(ns, x.owner, x.link, x.entry);
    forall k | Lookup(next, n, k).Some?
      ensures Lists(rows', n, k)
    {
      if n == x.owner && k == x.link {
        assert rows'[i].owner == n && rows'[i].link == k;
      } else {
        assert Lists(rows, n, k);
        var j :| j in rows && rows[j].owner == n && rows[j].link == k;
        assert rows'[j] == rows[j];
      }
    }
  }

  lemma EnteredPut(ns: Namespaces, rows: Catalogue, i: RowId, x: Listed)
    requires ElementLink(x.owner) in ns && Entered(ns, rows)
    requires i !in rows && Lookup(ns, x.owner, x.link).None?
    ensures Entered(Put(ns, x.owner, x.link, x.entry), rows[i := x])
  {
    LookupPut(ns, x.owner, x.link, x.entry);
  }

  /** Replacing a row by one with the same owner and link keeps the links in agreement. */
  lemma LinkedReplace(ns: Namespaces, rows: Catalogue, i: RowId, x: Listed, n: Name)
    requires LinkedAt(ns, rows, n) && i in rows && rows[i].owner == x.owner && rows[i].link == x.link
    ensures LinkedAt(ns, rows[i := x], n)
  {
    var rows' := rows[i := x];
    forall k | Lookup(ns, n, k).Some?
      ensures Lists(rows', n, k)
    {
      assert Lists(rows, n, k);
      var j :| j in rows && rows[j].owner == n && rows[j].link == k;
      assert j in rows' && rows'[j].owner == n && rows'[j].link == k;
    }
  }

  /** Rows of one element go with their links, and other rows are lost without theirs: the
      links of a namespace stay in agreement exactly when it lost no row. */
  lemma LinkedCutIff(ns: Namespaces, rows: Catalogue, e: Name, gone: set<RowId>, lost: set<RowId>, n: Name)
    requires ElementLink(e) in ns && LinkedAt(ns, rows, n)
    requires (e == n || LinkedAt(ns, rows, e)) && gone !! lost
    requires forall i | i in gone :: i in rows && rows[i].owner == e
    requires forall i | i in lost :: i in rows
    ensures LinkedAt(Cut(ns, e, LinksOf(rows, gone)), rows - gone - lost, n) <==> forall i | i in lost :: rows[i].owner != n
  {
    var ks := LinksOf(rows, gone);
    var next, rows' := Cut(ns, e, ks), rows - gone - lost;
    LookupCut(ns, e, ks);
    if i :| i in lost && rows[i].owner == n {
      var k := rows[i].link;
      assert !Lists(rows', n, k);
      assert !(n == e && k in ks);
      assert Lookup(next, n, k).Some?;
    } else {
      forall k | Lookup(next, n, k).Some?
        ensures Lists(rows', n, k)
      {
        assert Lists(rows, n, k);
        var j :| j in rows && rows[j].owner == n && rows[j].link == k;
        assert j in rows';
      }
      forall i | i in rows' && rows'[i].owner == n
        ensures Lookup(next, n, rows'[i].link).Some?
      {
        assert !(n == e && rows[i].link in ks);
      }
    }
  }

  ghost function LinksOf(rows: Catalogue, ids: set<RowId>): set<Link>
    requires ids <= rows.Keys
  {
    set i | i in ids :: rows[i].link
  }

  lemma LinkedCutAll(ns: Namespaces, rows: Catalogue, e: Name, gone: set<RowId>)
    requires ElementLink(e) in ns && Linked(ns, rows)
    requires forall i | i in gone :: i in rows && rows[i].owner == e
    ensures Linked(Cut(ns, e, LinksOf(rows, gone)), rows - gone)
  {
    var next, rows' := Cut(ns, e, LinksOf(rows, gone)), rows - gone;
    assert rows - gone - {} == rows';
    forall n
      ensures LinkedAt(next, rows', n)
    {
      assert LinkedAt(ns, rows, n) && LinkedAt(ns, rows, e);
      LinkedCutIff(ns, rows, e, gone, {}, n);
    }
  }

  lemma EnteredCut(ns: Namespaces, rows: Catalogue, e: Name, gone: set<RowId>)
    requires ElementLink(e) in ns && LinksDistinct(rows, e) && Entered(ns, rows)
    requires forall i | i in gone :: i in rows && rows[i].owner == e
    ensures Entered(Cut(ns, e, LinksOf(rows, gone)), rows - gone)
  {
    LookupCut(ns, e, LinksOf(rows, gone));
  }

  // ---- The engine's operations ----

  datatype Refusal =
    | ElementExists | ElementMissing | NamespaceNotFound | LinkExists | LinkMissing
    | ExportExists | ExportMissing | NotAResource | BadLink | SourceMissing | RowExists

  function AddElement(ix: Index, n: Name): Result<Index, Refusal> {
    if ElementLink(n) in ix.namespaces then Err(ElementExists)
    else Ok(ix.(namespaces := ix.namespaces[ElementLink(n) := Namespace(n, map[])]))
  }

  function AddEntry(ix: Index, n: Name, k: Link, x: Entry): Result<Index, Refusal> {
    if ElementLink(n) !in ix.namespaces then Err(NamespaceNotFound)
    else if Lookup(ix.namespaces, n, k).Some? then Err(LinkExists)
    else Ok(ix.(namespaces := Put(ix.namespaces, n, k, x)))
  }

  function DeleteEntry(ix: Index, n: Name, k: Link): Result<Index, Refusal> {
    if ElementLink(n) !in ix.namespaces then Err(NamespaceNotFound)
    else if Lookup(ix.namespaces, n, k).None? then Err(LinkMissing)
    else Ok(ix.(namespaces := Cut(ix.namespaces, n, {k})))
  }

  function AddExport(ix: Index, n: Name, link: Link): Result<Index, Refusal> {
    var x := Lookup(ix.namespaces, n, ClearParameters(link));
    if x.None? then Err(LinkMissing)
    else if link in ix.exports then Err(ExportExists)
    else Ok(ix.(exports := ix.exports[link := x.value]))
  }

  function DeleteExport(ix: Index, link: Link): Result<Index, Refusal> {
    if link !in ix.exports then Err(ExportMissing) else Ok(ix.(exports := ix.exports - {link}))
  }

  /** Nothing in the namespaces is lost or changed. */
  ghost predicate Grows(ns: Namespaces, next: Namespaces) {
    && (forall l | l in ns :: l in next && next[l].element == ns[l].element)
    && (forall n, k :: Lookup(ns, n, k).Some? ==> Lookup(next, n, k) == Lookup(ns, n, k))
  }

  lemma GrowsOn(a: Namespaces, b: Namespaces, c: Namespaces)
    requires Grows(a, b) && Grows(b, c)
    ensures Grows(a, c)
  {
  }

  lemma AddEntryGrows(ix: Index, n: Name, k: Link, x: Entry)
    requires AddEntry(ix, n, k, x).Ok?
    ensures Grows(ix.namespaces, AddEntry(ix, n, k, x).value.namespaces)
  {
    LookupPut(ix.namespaces, n, k, x);
  }

  lemma LinkedPutAll(ns: Namespaces, rows: Catalogue, i: RowId, x: Listed)
    requires ElementLink(x.owner) in ns && Linked(ns, rows)
    requires i !in rows && Lookup(ns, x.owner, x.link).None?
    ensures Linked(Put(ns, x.owner, x.link, x.entry), rows[i := x])
  {
    var next, rows' := Put(ns, x.owner, x.link, x.entry), rows[i := x];
    forall n
      ensures LinkedAt(next, rows', n)
    {
      LinkedPut(ns, rows, i, x, n);
    }
  }

  lemma LinkedReplaceAll(ns: Namespaces, rows: Catalogue, i: RowId, x: Listed)
    requires Linked(ns, rows) && i in rows && rows[i].owner == x.owner && rows[i].link == x.link
    ensures Linked(ns, rows[i := x])
  {
    var rows' := rows[i := x];
    forall n
      ensures LinkedAt(ns, rows', n)
    {
      LinkedReplace(ns, rows, i, x, n);
    }
  }

  /** Adding a row to the database and its entry to the engine keeps them in agreement. */
  lemma FiledPut(ns: Namespaces, rows: Catalogue, i: RowId, x: Listed)
    requires ElementLink(x.owner) in ns && Linked(ns, rows) && Entered(ns, rows)
    requires i !in rows && Lookup(ns, x.owner, x.link).None?
    ensures Linked(Put(ns, x.owner, x.link, x.entry), rows[i := x])
    ensures Entered(Put(ns, x.owner, x.link, x.entry), rows[i := x])
  {
    LinkedPutAll(ns, rows, i, x);
    EnteredPut(ns, rows, i, x);
  }

  lemma ExportedGrows(ns: Namespaces, next: Namespaces, exports: map<Link, Entry>, rows: map<Uuid, ExportRow>)
    requires Exported(ns, exports, rows)
    requires forall m, j :: Lookup(ns, m, j).Some? ==> Lookup(next, m, j) == Lookup(ns, m, j)
    ensures Exported(next, exports, rows)
  {
    forall u | u in rows
      ensures ExportedAt(next, exports, rows[u])
    {
      assert ExportedAt(ns, exports, rows[u]);
    }
  }

  lemma ExportedPut(ix: Index, rows: map<Uuid, ExportRow>, u: Uuid, row: ExportRow)
    requires Exported(ix.namespaces, ix.exports, rows) && u !in rows
    requires AddExport(ix, row.owner, row.link).Ok?
    ensures var next := AddExport(ix, row.owner, row.link).value;
            Exported(next.namespaces, next.exports, rows[u := row])
  {
    var next := AddExport(ix, row.owner, row.link).value;
    var rows' := rows[u := row];
    forall v | v in rows'
      ensures ExportedAt(next.namespaces, next.exports, rows'[v])
    {
      if v != u {
        assert ExportedAt(ix.namespaces, ix.exports, rows[v]);
      }
    }
    forall k | k in next.exports
      ensures exists v :: v in rows' && rows'[v].link == k
    {
      if k == row.link {
        assert rows'[u].link == k;
      } else {
        var v :| v in rows && rows[v].link == k;
        assert v in rows' && rows'[v].link == k;
      }
    }
  }

  // ---- Databases the engine can load ----

  ghost predicate Loadable(db: Database) {
    && (forall n :: LinksDistinct(Rows(db), n))
    && (forall u, v | u in db.exports && v in db.exports && db.exports[u].link == db.exports[v].link :: u == v)
    && (forall u | u in db.exports :: Lists(Rows(db), db.exports[u].owner, ClearParameters(db.exports[u].link)))
  }

  lemma IndexedIsLoadable(ix: Index, db: Database)
    requires Indexes(ix, db)
    ensures Loadable(db)
  {
    forall n
      ensures LinksDistinct(Rows(db), n)
    {
      assert LinkedAt(ix.namespaces, Rows(db), n);
    }
    forall u | u in db.exports
      ensures Lists(Rows(db), db.exports[u].owner, ClearParameters(db.exports[u].link))
    {
      assert ExportedAt(ix.namespaces, ix.exports, db.exports[u]);
      assert LinkedAt(ix.namespaces, Rows(db), db.exports[u].owner);
    }
  }
}
