/**
 Histories of installations and upgrades. Each call loads the engine anew; a refused call
 leaves the database as it was.
 */
module ManifestRuns {
  import opened Common
  import opened Elements
  import opened Installation
  import opened ManifestExports
  import opened ManifestImports
  import opened ManifestResources
  import opened Manifests
  import opened TableSync

  datatype Call = Install(manifest: Manifest) | Upgrade(manifest: Manifest)

  ghost function Called(s: State, c: Call): Result<State, Refusal> {
    if c.Install? then Installed(s, c.manifest) else Upgraded(s, c.manifest)
  }

  /** The call went through on the database's index. */
  ghost predicate Succeeded(db: Database, c: Call, ix: Index, next: Database) {
    Indexes(ix, db) && Called(State(db, ix), c).Ok? && Called(State(db, ix), c).value.db == next
  }

  ghost predicate Step(db: Database, c: Call, next: Database) {
    next == db || exists ix :: Succeeded(db, c, ix, next)
  }

  ghost predicate Run(dbs: seq<Database>, calls: seq<Call>) {
    |dbs| == |calls| + 1 && forall i | 0 <= i < |calls| :: Step(dbs[i], calls[i], dbs[i + 1])
  }

  /** The state the manifest is applied to. */
  ghost function Applying(s: State, c: Call): State {
    if c.Install? then WithElement(s, c.manifest) else s
  }

  lemma ApplyingIsIndexed(s: State, c: Call)
    requires Sound(s.db) && Indexes(s.ix, s.db) && Called(s, c).Ok?
    ensures var t := Applying(s, c);
            && Sound(t.db) && Indexes(t.ix, t.db) && c.manifest.name in t.db.elements
            && Called(s, c) == Applied(t, c.manifest)
            && t.db == s.db.(elements := t.db.elements)
  {
    if c.Install? {
      NewElementIndexed(s, c.manifest);
    }
  }

  lemma SuccessKeepsSound(db: Database, c: Call, ix: Index, next: Database)
    requires Sound(db) && Succeeded(db, c, ix, next)
    ensures Sound(next)
  {
    var s := State(db, ix);
    ApplyingIsIndexed(s, c);
    AppliedSound(Applying(s, c), c.manifest);
  }

  lemma SuccessKeepsOthers(db: Database, c: Call, ix: Index, next: Database, e: Name)
    requires Sound(db) && Succeeded(db, c, ix, next) && c.manifest.name != e
    ensures ResourceTable(next, e) == ResourceTable(db, e) && ExportTable(next, e) == ExportTable(db, e)
  {
    var s := State(db, ix);
    ApplyingIsIndexed(s, c);
    var t := Applying(s, c);
    assert OtherResources(next, c.manifest.name) == OtherResources(t.db, c.manifest.name) by {
      AppliedResources(t, c.manifest);
    }
    assert OtherExports(next, c.manifest.name) == OtherExports(t.db, c.manifest.name) by {
      AppliedExports(t, c.manifest);
    }
    OthersKeepTables(t.db, next, c.manifest.name, e);
  }

  lemma OthersKeepTables(db: Database, next: Database, n: Name, e: Name)
    requires n != e && OtherResources(next, n) == OtherResources(db, n) && OtherExports(next, n) == OtherExports(db, n)
    ensures ResourceTable(next, e) == ResourceTable(db, e) && ExportTable(next, e) == ExportTable(db, e)
  {
    assert forall u :: u in ResourceTable(db, e) <==> u in OtherResources(db, n) && OtherResources(db, n)[u].owner == e;
    assert forall u :: u in ResourceTable(next, e) <==> u in OtherResources(next, n) && OtherResources(next, n)[u].owner == e;
    assert forall u :: u in ExportTable(db, e) <==> u in OtherExports(db, n) && OtherExports(db, n)[u].owner == e;
    assert forall u :: u in ExportTable(next, e) <==> u in OtherExports(next, n) && OtherExports(next, n)[u].owner == e;
    assert forall u | u in ResourceTable(db, e) :: db.resources[u] == OtherResources(db, n)[u] && next.resources[u] == db.resources[u];
    assert forall u | u in ExportTable(db, e) :: db.exports[u] == OtherExports(db, n)[u] && next.exports[u] == db.exports[u];
  }

  /** Over every history the database stays sound, and an element's resources and exports
      are touched by no call about another element. */
  lemma {:induction false} RunIsolates(dbs: seq<Database>, calls: seq<Call>, e: Name)
    requires Run(dbs, calls) && Sound(dbs[0])
    ensures Sound(dbs[|calls|])
    ensures (forall c | c in calls :: c.manifest.name != e) ==>
              ResourceTable(dbs[|calls|], e) == ResourceTable(dbs[0], e) && ExportTable(dbs[|calls|], e) == ExportTable(dbs[0], e)
    decreases |calls|
  {
    if calls != [] {
      var k := |calls| - 1;
      PrefixRuns(dbs, calls);
      RunIsolates(dbs[..k + 1], calls[..k], e);
      assert Step(dbs[k], calls[k], dbs[k + 1]);
      if dbs[k + 1] != dbs[k] {
        var ix :| Succeeded(dbs[k], calls[k], ix, dbs[k + 1]);
        SuccessKeepsSound(dbs[k], calls[k], ix, dbs[k + 1]);
        if calls[k].manifest.name != e {
          SuccessKeepsOthers(dbs[k], calls[k], ix, dbs[k + 1], e);
        }
      }
      assert calls[k] in calls && forall c | c in calls[..k] :: c in calls;
    }
  }

  lemma PrefixRuns(dbs: seq<Database>, calls: seq<Call>)
    requires Run(dbs, calls) && calls != []
    ensures Run(dbs[..|calls|], calls[..|calls| - 1])
  {
    var ds, cs := dbs[..|calls|], calls[..|calls| - 1];
    forall i | 0 <= i < |cs|
      ensures Step(ds[i], cs[i], ds[i + 1])
    {
      assert Step(dbs[i], calls[i], dbs[i + 1]);
    }
  }

  /** Whatever is installed or upgraded afterwards, an element's stored resources and exports
      are those of the last manifest that was applied to it. */
  lemma LastManifestDecides(db: Database, c: Call, ix: Index, dbs: seq<Database>, calls: seq<Call>)
    requires Sound(db) && Run(dbs, calls) && Succeeded(db, c, ix, dbs[0])
    requires forall d | d in calls :: d.manifest.name != c.manifest.name
    ensures var t, m := Applying(State(db, ix), c), c.manifest;
            && Applied(t, m).Ok?
            && Realises(ResourceTable(dbs[|calls|], m.name), RequestedResources(AfterImports(t, m), m.name, m.groups))
            && Realises(ExportTable(dbs[|calls|], m.name), WantedExports(m.exports))
  {
    var t, m := Applying(State(db, ix), c), c.manifest;
    ApplyingIsIndexed(State(db, ix), c);
    SuccessKeepsSound(db, c, ix, dbs[0]);
    RunIsolates(dbs, calls, m.name);
    AppliedResources(t, m);
    AppliedExports(t, m);
  }
}
