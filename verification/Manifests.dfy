/**
 Applying a manifest: imports, then resources, then exports of an element are brought in
 line with it, in the database and in the engine's index. Given as functions from one
 state to the next; `ManifestService` is the same in place.
 */
module Manifests {
  import opened Common
  import opened Documents
  import opened Elements
  import opened Links
  import opened TableSync

  /** Items carry the identifier they name, or the one drawn for them. */
  datatype ImportItem = ImportItem(name: string, element: Link, link: Link, uuid: Uuid)

  datatype ResourceItem = ResourceItem(name: string, value: Document, uuid: Uuid)

  datatype Group = Group(prefix: Link, items: seq<ResourceItem>)

  datatype ExportItem = ExportItem(name: string, link: Link, uuid: Uuid)

  datatype Manifest = Manifest(uuid: Uuid, name: Name, imports: seq<ImportItem>, groups: seq<Group>, exports: seq<ExportItem>)

  datatype State = State(db: Database, ix: Index)

  type Key = (Link, string)

  /** A phase under way: `left` are the stored rows the manifest has not named yet. */
  datatype Progress<!K> = Progress(db: Database, ix: Index, left: map<K, Uuid>)

  // ---- The rows of one element ----

  ghost function ImportTable(db: Database, e: Name): Owned<string, (Link, Uuid)> {
    map u | u in db.imports && db.imports[u].owner == e ::
      (db.imports[u].name, (ElementLink(db.imports[u].fromElement), db.imports[u].source))
  }

  ghost function ResourceTable(db: Database, e: Name): Owned<Key, Document> {
    map u | u in db.resources && db.resources[u].owner == e ::
      ((db.resources[u].prefix, db.resources[u].name), db.resources[u].value)
  }

  ghost function ExportTable(db: Database, e: Name): Owned<string, Link> {
    map u | u in db.exports && db.exports[u].owner == e :: (db.exports[u].name, db.exports[u].link)
  }

  // ---- Imports ----

  predicate ImportNamed(db: Database, e: Name, name: string) {
    exists u | u in db.imports :: db.imports[u].owner == e && db.imports[u].name == name
  }

  function ImportStep(p: Progress<string>, e: Name, item: ImportItem): Result<Progress<string>, Refusal> {
    if item.element !in p.ix.namespaces then Err(NamespaceNotFound)
    else if item.link !in p.ix.exports then Err(ExportMissing)
    else if p.ix.exports[item.link].Imported? then Err(NotAResource)
    else
      var source := p.ix.exports[item.link];
      var row := ImportRow(e, p.ix.namespaces[item.element].element, source.uuid, item.name);
      if source.uuid !in p.db.resources then Err(SourceMissing)
      else if item.name in p.left then
        Ok(p.(db := p.db.(imports := p.db.imports[p.left[item.name] := row]), left := p.left - {item.name}))
      else if item.uuid in p.db.imports || ImportNamed(p.db, e, item.name) then Err(RowExists)
      else
        var r := AddEntry(p.ix, e, ImportLink(e, item.name), Imported(source.uuid, source.link));
        if r.Err? then Err(r.error)
        else Ok(p.(db := p.db.(imports := p.db.imports[item.uuid := row]), ix := r.value))
  }

  function ImportSteps(p: Progress<string>, e: Name, items: seq<ImportItem>): Result<Progress<string>, Refusal> {
    if items == [] then Ok(p)
    else
      var k := |items| - 1;
      var r := ImportSteps(p, e, items[..k]);
      if r.Err? then r else ImportStep(r.value, e, items[k])
  }

  function DropImports(p: Progress<string>, e: Name): Result<State, Refusal> {
    var links := set n | n in p.left :: ImportLink(e, n);
    if ElementLink(e) !in p.ix.namespaces then Err(NamespaceNotFound)
    else if exists k | k in links :: Lookup(p.ix.namespaces, e, k).None? then Err(LinkMissing)
    else Ok(State(p.db.(imports := p.db.imports - p.left.Values), p.ix.(namespaces := Cut(p.ix.namespaces, e, links))))
  }

  ghost function ImportsApplied(s: State, e: Name, items: seq<ImportItem>): Result<State, Refusal> {
    var r := ImportSteps(Progress(s.db, s.ix, ByKey(ImportTable(s.db, e))), e, items);
    if r.Err? then Err(r.error) else DropImports(r.value, e)
  }

  // ---- Resources ----

  /** `full_link_original`: the link of what the prefix goes through, as it is where it
      was created, and the discarded part. */
  function Resolve(ix: Index, e: Name, full: Link): Option<Link> {
    var link := ExtractLink(full);
    if link.None? then None
    else
      var rest := full[|link.value|..];
      if '.' in link.value then
        var x := Lookup(ix.namespaces, e, ClearParameters(link.value));
        if x.None? then None else Some(x.value.Original() + rest)
      else if link.value in ix.namespaces then Some(ElementLink(ix.namespaces[link.value].element) + rest)
      else None
  }

  function ResourceStep(p: Progress<Key>, e: Name, prefix: Link, item: ResourceItem): Result<Progress<Key>, Refusal> {
    var row := ResourceRow(e, prefix, item.name, item.value);
    if (prefix, item.name) in p.left then
      Ok(p.(db := p.db.(resources := p.db.resources[p.left[(prefix, item.name)] := row]), left := p.left - {(prefix, item.name)}))
    else if item.uuid in p.db.resources then Err(RowExists)
    else
      var r := AddEntry(p.ix, e, row.Link(), Own(item.uuid, row.Link()));
      if r.Err? then Err(r.error)
      else Ok(p.(db := p.db.(resources := p.db.resources[item.uuid := row]), ix := r.value))
  }

  function ResourceSteps(p: Progress<Key>, e: Name, prefix: Link, items: seq<ResourceItem>): Result<Progress<Key>, Refusal> {
    if items == [] then Ok(p)
    else
      var k := |items| - 1;
      var r := ResourceSteps(p, e, prefix, items[..k]);
      if r.Err? then r else ResourceStep(r.value, e, prefix, items[k])
  }

  function GroupStep(p: Progress<Key>, e: Name, group: Group): Result<Progress<Key>, Refusal> {
    var prefix := Resolve(p.ix, e, group.prefix);
    if prefix.None? then Err(BadLink) else ResourceSteps(p, e, prefix.value, group.items)
  }

  function GroupSteps(p: Progress<Key>, e: Name, groups: seq<Group>): Result<Progress<Key>, Refusal> {
    if groups == [] then Ok(p)
    else
      var k := |groups| - 1;
      var r := GroupSteps(p, e, groups[..k]);
      if r.Err? then r else GroupStep(r.value, e, groups[k])
  }

  /** The element a prefix belongs to; a deleted resource looks its kind up there. */
  function Provider(prefix: Link): Link {
    Split(prefix, '.')[0]
  }

  /** Deleting resources; the database deletes the imports that came from them. */
  function DropResources(p: Progress<Key>, e: Name): Result<State, Refusal> {
    var links := set k | k in p.left :: ResourceLink(k.0, k.1);
    if ElementLink(e) !in p.ix.namespaces then Err(NamespaceNotFound)
    else if exists k | k in links :: Lookup(p.ix.namespaces, e, k).None? then Err(LinkMissing)
    else if exists k | k in p.left :: Provider(k.0) !in p.ix.namespaces then Err(NamespaceNotFound)
    else
      var lost := set u | u in p.db.imports && p.db.imports[u].source in p.left.Values;
      Ok(State(p.db.(resources := p.db.resources - p.left.Values, imports := p.db.imports - lost),
               p.ix.(namespaces := Cut(p.ix.namespaces, e, links))))
  }

  ghost function ResourcesApplied(s: State, e: Name, groups: seq<Group>): Result<State, Refusal> {
    var r := GroupSteps(Progress(s.db, s.ix, ByKey(ResourceTable(s.db, e))), e, groups);
    if r.Err? then Err(r.error) else DropResources(r.value, e)
  }

  // ---- Exports ----

  predicate ExportNamed(db: Database, e: Name, name: string) {
    exists u | u in db.exports :: db.exports[u].owner == e && db.exports[u].name == name
  }

  function ExportStep(p: Progress<string>, e: Name, item: ExportItem): Result<Progress<string>, Refusal> {
    var row := ExportRow(e, item.name, item.link);
    if item.name in p.left then
      Ok(p.(db := p.db.(exports := p.db.exports[p.left[item.name] := row]), left := p.left - {item.name}))
    else if item.uuid in p.db.exports || ExportNamed(p.db, e, item.name) then Err(RowExists)
    else
      var r := AddExport(p.ix, e, item.link);
      if r.Err? then Err(r.error)
      else Ok(p.(db := p.db.(exports := p.db.exports[item.uuid := row]), ix := r.value))
  }

  function ExportSteps(p: Progress<string>, e: Name, items: seq<ExportItem>): Result<Progress<string>, Refusal> {
    if items == [] then Ok(p)
    else
      var k := |items| - 1;
      var r := ExportSteps(p, e, items[..k]);
      if r.Err? then r else ExportStep(r.value, e, items[k])
  }

  ghost function LeftLinks(p: Progress<string>): set<Link> {
    set u | u in p.left.Values && u in p.db.exports :: p.db.exports[u].link
  }

  /** Deleting exports: each link is taken out of the index once. */
  ghost function DropExports(p: Progress<string>): Result<State, Refusal> {
    if LeftLinks(p) <= p.ix.exports.Keys && LeftDistinct(p) then
      Ok(State(p.db.(exports := p.db.exports - p.left.Values), p.ix.(exports := p.ix.exports - LeftLinks(p))))
    else Err(ExportMissing)
  }

  ghost predicate LeftDistinct(p: Progress<string>) {
    forall u, v | u in p.left.Values && v in p.left.Values && u in p.db.exports && v in p.db.exports
                  && p.db.exports[u].link == p.db.exports[v].link :: u == v
  }

  ghost function ExportsApplied(s: State, e: Name, items: seq<ExportItem>): Result<State, Refusal> {
    var r := ExportSteps(Progress(s.db, s.ix, ByKey(ExportTable(s.db, e))), e, items);
    if r.Err? then Err(r.error) else DropExports(r.value)
  }

  // ---- Manifests ----

  ghost function Applied(s: State, m: Manifest): Result<State, Refusal> {
    var a := ImportsApplied(s, m.name, m.imports);
    if a.Err? then a
    else
      var b := ResourcesApplied(a.value, m.name, m.groups);
      if b.Err? then b else ExportsApplied(b.value, m.name, m.exports)
  }

  /** Installing on a database the engine has loaded. */
  ghost function Installed(s: State, m: Manifest): Result<State, Refusal> {
    if m.name in s.db.elements then Err(ElementExists)
    else if m.uuid in s.db.elements.Values then Err(RowExists)
    else
      var r := AddElement(s.ix, m.name);
      if r.Err? then Err(r.error)
      else Applied(State(s.db.(elements := s.db.elements[m.name := m.uuid]), r.value), m)
  }

  ghost function Upgraded(s: State, m: Manifest): Result<State, Refusal> {
    if m.name !in s.db.elements then Err(ElementMissing) else Applied(s, m)
  }
}
