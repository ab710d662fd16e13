/** The engine's export index through the export phase: exactly when it follows the rows. */
module ExportIndex {
  import opened Common
  import opened Elements
  import opened Links
  import opened ManifestExports
  import opened Manifests
  import opened TableSync

  /** Each exported link once; of the element's own exports only the links are known to be indexed. */
  ghost predicate Serving(db: Database, ix: Index, e: Name) {
    && (forall u | u in db.exports :: db.exports[u].link in ix.exports)
    && (forall u | u in db.exports && db.exports[u].owner != e :: ExportedAt(ix.namespaces, ix.exports, db.exports[u]))
    && (forall k | k in ix.exports :: LinkStored(db, k))
    && (forall u, v | u in db.exports && v in db.exports && db.exports[u].link == db.exports[v].link :: u == v)
  }

  ghost predicate LinkStored(db: Database, k: Link) {
    exists u :: u in db.exports && db.exports[u].link == k
  }

  // ---- What the phase does to the index ----

  /** A name the manifest exports and the element did not. */
  ghost predicate New(db: Database, e: Name, wanted: map<string, Link>, n: string) {
    n in wanted && !ExportNamed(db, e, n)
  }

  ghost predicate NewLink(db: Database, e: Name, wanted: map<string, Link>, k: Link) {
    exists n :: New(db, e, wanted, n) && wanted[n] == k
  }

  /** A link the element exported under a name the manifest has not. */
  ghost predicate GoneLink(db: Database, e: Name, wanted: map<string, Link>, k: Link) {
    exists u | u in db.exports ::
      db.exports[u].owner == e && db.exports[u].name !in wanted && db.exports[u].link == k
  }

  /** New links are indexed with what they lead to, and the rest of the index is as it was. */
  ghost predicate Added(s: State, ix: Index, e: Name, done: map<string, Link>) {
    && ix.namespaces == s.ix.namespaces
    && (forall k | k in s.ix.exports :: k in ix.exports && ix.exports[k] == s.ix.exports[k])
    && (forall k | k in ix.exports :: k in s.ix.exports || NewLink(s.db, e, done, k))
    && (forall n | New(s.db, e, done, n) :: NewAt(s, ix, e, done[n]))
    && (forall n, m | New(s.db, e, done, n) && New(s.db, e, done, m) && done[n] == done[m] :: n == m)
  }

  ghost predicate NewAt(s: State, ix: Index, e: Name, k: Link) {
    k !in s.ix.exports && k in ix.exports && Lookup(s.ix.namespaces, e, ClearParameters(k)) == Some(ix.exports[k])
  }

  /** A row that is not left over has a name that is done already. */
  lemma StepIsNewName(s: State, p: Progress<string>, e: Name, item: ExportItem, done: map<string, Link>)
    requires ExportsUnderWay(s, p, e, done) && ExportStep(p, e, item).Ok?
    ensures item.name in p.left ==> ExportNamed(s.db, e, item.name)
    ensures item.name !in p.left ==> !ExportNamed(s.db, e, item.name) && item.name !in done
  {
    var before, rows := ExportTable(s.db, e), ExportTable(p.db, e);
    if item.name in p.left {
      assert p.left[item.name] in before && before[p.left[item.name]].0 == rows[p.left[item.name]].0;
    } else {
      if ExportNamed(s.db, e, item.name) {
        var u :| u in s.db.exports && s.db.exports[u].owner == e && s.db.exports[u].name == item.name;
        assert u in before && u in rows && rows[u].0 == item.name;
        assert ExportNamed(p.db, e, item.name);
      }
      assert item.name in done ==> HasKey(rows, item.name);
    }
  }

  lemma UpdateAdds(s: State, ix: Index, e: Name, done: map<string, Link>, n: string, k: Link)
    requires Added(s, ix, e, done) && ExportNamed(s.db, e, n)
    ensures Added(s, ix, e, done[n := k])
  {
    assert forall m :: New(s.db, e, done[n := k], m) <==> New(s.db, e, done, m);
    forall j | j in ix.exports
      ensures j in s.ix.exports || NewLink(s.db, e, done[n := k], j)
    {
      if j !in s.ix.exports {
        var m :| New(s.db, e, done, m) && done[m] == j;
        assert New(s.db, e, done[n := k], m) && done[n := k][m] == j;
      }
    }
  }

  lemma InsertAdds(s: State, ix: Index, e: Name, done: map<string, Link>, n: string, k: Link)
    requires Added(s, ix, e, done) && !ExportNamed(s.db, e, n) && n !in done && AddExport(ix, e, k).Ok?
    ensures Added(s, AddExport(ix, e, k).value, e, done[n := k])
  {
    var next, done' := AddExport(ix, e, k).value, done[n := k];
    assert New(s.db, e, done', n) && done'[n] == k;
    assert forall m | m != n :: New(s.db, e, done', m) <==> New(s.db, e, done, m);
    forall j | j in next.exports
      ensures j in s.ix.exports || NewLink(s.db, e, done', j)
    {
      if j != k && j !in s.ix.exports {
        var m :| New(s.db, e, done, m) && done[m] == j;
        assert New(s.db, e, done', m) && done'[m] == j;
      }
    }
    forall m | New(s.db, e, done', m)
      ensures NewAt(s, next, e, done'[m])
    {
      assert m != n ==> NewAt(s, ix, e, done[m]);
    }
    forall m | New(s.db, e, done', m) && m != n
      ensures done'[m] != k
    {
      assert NewAt(s, ix, e, done[m]);
    }
  }

  lemma {:induction false} ExportStepsAdd(s: State, e: Name, items: seq<ExportItem>)
    requires Sound(s.db) && e in s.db.elements && ExportSteps(ExportStart(s, e), e, items).Ok?
    ensures Added(s, ExportSteps(ExportStart(s, e), e, items).value.ix, e, WantedExports(items))
  {
    if items != [] {
      var k := |items| - 1;
      var item, done := items[k], WantedExports(items[..k]);
      ExportStepsAdd(s, e, items[..k]);
      var r := ExportSteps(ExportStart(s, e), e, items[..k]).value;
      assert (if item.name in r.left then ExportNamed(s.db, e, item.name)
              else !ExportNamed(s.db, e, item.name) && item.name !in done) by {
        ExportStepsKeep(s, e, items[..k]);
        StepIsNewName(s, r, e, item, done);
      }
      if item.name in r.left {
        UpdateAdds(s, r.ix, e, done, item.name, item.link);
      } else {
        InsertAdds(s, r.ix, e, done, item.name, item.link);
      }
    }
  }

  /** The index at the end: without the links of the dropped exports. */
  ghost predicate Ends(s: State, s': State, e: Name, wanted: map<string, Link>) {
    && s'.ix.namespaces == s.ix.namespaces
    && (forall k :: k in s'.ix.exports <==> (k in s.ix.exports && !GoneLink(s.db, e, wanted, k)) || NewLink(s.db, e, wanted, k))
    && (forall k | k in s'.ix.exports && k in s.ix.exports :: s'.ix.exports[k] == s.ix.exports[k])
    && (forall n | New(s.db, e, wanted, n) :: NewAt(s, s'.ix, e, wanted[n]))
    && (forall n, m | New(s.db, e, wanted, n) && New(s.db, e, wanted, m) && wanted[n] == wanted[m] :: n == m)
  }

  /** The rows left over are those of the names the manifest has not. */
  lemma LeftAreGone(s: State, p: Progress<string>, e: Name, wanted: map<string, Link>)
    requires ExportsUnderWay(s, p, e, wanted) && LeftExports(s.db, p, e)
    ensures forall k :: k in LeftLinks(p) <==> GoneLink(s.db, e, wanted, k)
  {
    var before, rows := ExportTable(s.db, e), ExportTable(p.db, e);
    forall k
      ensures k in LeftLinks(p) <==> GoneLink(s.db, e, wanted, k)
    {
      if k in LeftLinks(p) {
        var u :| u in p.left.Values && u in p.db.exports && p.db.exports[u].link == k;
        var n :| n in p.left && p.left[n] == u;
        assert s.db.exports[u].owner == e && s.db.exports[u].name == n && n !in wanted;
      }
      if GoneLink(s.db, e, wanted, k) {
        var u :| u in s.db.exports && s.db.exports[u].owner == e && s.db.exports[u].name !in wanted && s.db.exports[u].link == k;
        assert u in before && u in rows && rows[u].0 == before[u].0;
        assert rows[u].0 in p.left && p.left[rows[u].0] == u;
        assert u in p.left.Values && p.db.exports[u] == s.db.exports[u];
      }
    }
  }

  lemma PhaseEnds(s: State, e: Name, items: seq<ExportItem>)
    requires Sound(s.db) && e in s.db.elements && ExportsApplied(s, e, items).Ok? && Serving(s.db, s.ix, e)
    ensures Ends(s, ExportsApplied(s, e, items).value, e, WantedExports(items))
  {
    var q, wanted := ExportSteps(ExportStart(s, e), e, items).value, WantedExports(items);
    var s' := ExportsApplied(s, e, items).value;
    assert forall k :: k in LeftLinks(q) <==> GoneLink(s.db, e, wanted, k) by {
      ExportStepsKeep(s, e, items);
      LeftAreGone(s, q, e, wanted);
    }
    ExportStepsAdd(s, e, items);
    DroppedEnds(s, q.ix, LeftLinks(q), s', e, wanted);
  }

  lemma DroppedEnds(s: State, ix: Index, gone: set<Link>, s': State, e: Name, wanted: map<string, Link>)
    requires Added(s, ix, e, wanted) && (forall u | u in s.db.exports :: s.db.exports[u].link in s.ix.exports)
    requires forall k :: k in gone <==> GoneLink(s.db, e, wanted, k)
    requires s'.ix == ix.(exports := ix.exports - gone)
    ensures Ends(s, s', e, wanted)
  {
    forall n | New(s.db, e, wanted, n)
      ensures NewAt(s, s'.ix, e, wanted[n])
    {
      assert NewAt(s, ix, e, wanted[n]);
    }
    forall k
      ensures k in s'.ix.exports <==> (k in s.ix.exports && !GoneLink(s.db, e, wanted, k)) || NewLink(s.db, e, wanted, k)
    {
      if NewLink(s.db, e, wanted, k) {
        var n :| New(s.db, e, wanted, n) && wanted[n] == k;
        assert NewAt(s, s'.ix, e, wanted[n]);
      }
    }
  }

  // ---- When that is the index of the rows ----

  /** The element's stored exports that the manifest keeps. */
  ghost function KeptRows(db: Database, e: Name, wanted: map<string, Link>): (r: set<Uuid>)
    ensures forall u :: u in r <==> u in db.exports && db.exports[u].owner == e && db.exports[u].name in wanted
  {
    set u | u in db.exports && db.exports[u].owner == e && db.exports[u].name in wanted
  }

  ghost function LinksBefore(db: Database, e: Name, wanted: map<string, Link>): map<Uuid, Link> {
    map u | u in KeptRows(db, e, wanted) :: db.exports[u].link
  }

  ghost function LinksNow(db: Database, e: Name, wanted: map<string, Link>): map<Uuid, Link> {
    map u | u in KeptRows(db, e, wanted) :: wanted[db.exports[u].name]
  }

  /** Kept exports have the same links as before, perhaps among each other, and these still
      lead to what is indexed. */
  ghost predicate LinksStay(s: State, e: Name, wanted: map<string, Link>) {
    && LinksNow(s.db, e, wanted).Values == LinksBefore(s.db, e, wanted).Values
    && (forall u | u in KeptRows(s.db, e, wanted) :: ExportedAt(s.ix.namespaces, s.ix.exports, s.db.exports[u]))
  }

  lemma {:induction false} ValuesCount(m: map<Uuid, Link>)
    ensures |m.Values| <= |m|
    ensures |m.Values| == |m| <==> forall u, v | u in m && v in m && m[u] == m[v] :: u == v
    decreases |m|
  {
    if m != map[] {
      var u :| u in m;
      var rest := m - {u};
      ValuesCount(rest);
      assert m.Values == rest.Values + {m[u]} by {
        assert forall v | v in m && v != u :: v in rest && rest[v] == m[v];
      }
      if m[u] in rest.Values {
        var v :| v in rest && rest[v] == m[u];
      } else {
        assert forall v | v in rest :: m[v] != m[u];
      }
      assert forall v | v in rest :: v in m && m[v] == rest[v];
      assert |rest| == |m| - 1;
    }
  }

  /** With the same links as before, kept exports have links of their own. */
  lemma NowDistinct(db: Database, e: Name, wanted: map<string, Link>)
    requires forall u, v | u in db.exports && v in db.exports && db.exports[u].link == db.exports[v].link :: u == v
    requires LinksNow(db, e, wanted).Values == LinksBefore(db, e, wanted).Values
    ensures var now := LinksNow(db, e, wanted);
            forall u, v | u in now && v in now && now[u] == now[v] :: u == v
  {
    var now, was := LinksNow(db, e, wanted), LinksBefore(db, e, wanted);
    ValuesCount(was);
    ValuesCount(now);
    assert now.Keys == was.Keys;
    assert |now| == |now.Keys| == |was.Keys| == |was|;
  }

  // ---- The rows at the end ----

  /** The stored exports at the end, as the phase leaves them. */
  ghost predicate Stored(db: Database, next: Database, e: Name, wanted: map<string, Link>) {
    && OtherExports(next, e) == OtherExports(db, e)
    && Realises(ExportTable(next, e), wanted)
    && Kept(ExportTable(db, e), ExportTable(next, e), wanted)
  }

  /** Another element's export. */
  ghost predicate IsOther(db: Database, next: Database, e: Name, u: Uuid)
    requires u in next.exports
  {
    u in db.exports && db.exports[u] == next.exports[u] && db.exports[u].owner != e
  }

  ghost predicate IsKept(db: Database, next: Database, e: Name, wanted: map<string, Link>, u: Uuid)
    requires u in next.exports
  {
    u in KeptRows(db, e, wanted) && next.exports[u].owner == e && next.exports[u].link == LinksNow(db, e, wanted)[u]
  }

  ghost predicate IsNew(db: Database, next: Database, e: Name, wanted: map<string, Link>, u: Uuid)
    requires u in next.exports
  {
    var row := next.exports[u];
    row.owner == e && New(db, e, wanted, row.name) && row.link == wanted[row.name]
  }

  lemma OthersStay(db: Database, next: Database, e: Name, u: Uuid)
    requires OtherExports(next, e) == OtherExports(db, e)
    ensures u in db.exports && db.exports[u].owner != e ==> u in next.exports && IsOther(db, next, e, u)
    ensures u in next.exports && next.exports[u].owner != e ==> IsOther(db, next, e, u)
  {
    assert u in OtherExports(next, e) <==> u in OtherExports(db, e);
    if u in OtherExports(db, e) {
      assert OtherExports(next, e)[u] == OtherExports(db, e)[u];
    }
  }

  lemma KeptStay(db: Database, next: Database, e: Name, wanted: map<string, Link>, u: Uuid)
    requires Stored(db, next, e, wanted) && u in KeptRows(db, e, wanted)
    ensures u in next.exports && IsKept(db, next, e, wanted, u)
  {
    var before, rows := ExportTable(db, e), ExportTable(next, e);
    assert u in before && u in rows && rows[u].0 == before[u].0;
  }

  lemma NewStored(db: Database, next: Database, e: Name, wanted: map<string, Link>, n: string) returns (u: Uuid)
    requires Stored(db, next, e, wanted) && New(db, e, wanted, n)
    ensures u in next.exports && IsNew(db, next, e, wanted, u) && next.exports[u].name == n
  {
    var rows := ExportTable(next, e);
    assert HasKey(rows, n);
    u :| u in rows && rows[u].0 == n;
  }

  lemma RowIs(db: Database, next: Database, e: Name, wanted: map<string, Link>, u: Uuid)
    requires Stored(db, next, e, wanted) && u in next.exports
    ensures IsOther(db, next, e, u) || IsKept(db, next, e, wanted, u) || IsNew(db, next, e, wanted, u)
  {
    OthersStay(db, next, e, u);
    var row, rows := next.exports[u], ExportTable(next, e);
    if row.owner == e {
      assert u in rows && row.name in wanted && row.link == wanted[row.name];
      if ExportNamed(db, e, row.name) {
        var v :| v in db.exports && db.exports[v].owner == e && db.exports[v].name == row.name;
        KeptStay(db, next, e, wanted, v);
        assert v in ExportTable(db, e) && v in rows && rows[v].0 == row.name;
      }
    }
  }

  // ---- If the links stay ----

  /** A kept export's link now is one that an own kept export had. */
  lemma KeptLink(s: State, e: Name, wanted: map<string, Link>, u: Uuid) returns (v: Uuid)
    requires LinksStay(s, e, wanted) && u in KeptRows(s.db, e, wanted)
    ensures v in KeptRows(s.db, e, wanted) && s.db.exports[v].link == LinksNow(s.db, e, wanted)[u]
  {
    var now, was := LinksNow(s.db, e, wanted), LinksBefore(s.db, e, wanted);
    assert now[u] in now.Values && now[u] in was.Values;
    v :| v in was && was[v] == now[u];
  }

  lemma RowIndexed(s: State, s': State, e: Name, wanted: map<string, Link>, u: Uuid)
    requires Serving(s.db, s.ix, e) && Ends(s, s', e, wanted) && Stored(s.db, s'.db, e, wanted)
    requires LinksStay(s, e, wanted) && u in s'.db.exports
    ensures ExportedAt(s'.ix.namespaces, s'.ix.exports, s'.db.exports[u])
    ensures IsNew(s.db, s'.db, e, wanted, u) <==> s'.db.exports[u].link !in s.ix.exports
  {
    RowIs(s.db, s'.db, e, wanted, u);
    if IsNew(s.db, s'.db, e, wanted, u) {
      assert NewAt(s, s'.ix, e, wanted[s'.db.exports[u].name]);
    } else {
      var v := u;
      if !IsOther(s.db, s'.db, e, u) {
        v := KeptLink(s, e, wanted, u);
      }
      assert ExportedAt(s.ix.namespaces, s.ix.exports, s.db.exports[v]);
      assert !GoneLink(s.db, e, wanted, s.db.exports[v].link);
    }
  }

  lemma LinkHasRow(s: State, s': State, e: Name, wanted: map<string, Link>, k: Link)
    requires Serving(s.db, s.ix, e) && Ends(s, s', e, wanted) && Stored(s.db, s'.db, e, wanted)
    requires LinksStay(s, e, wanted) && k in s'.ix.exports
    ensures LinkStored(s'.db, k)
  {
    if NewLink(s.db, e, wanted, k) {
      var n :| New(s.db, e, wanted, n) && wanted[n] == k;
      var u := NewStored(s.db, s'.db, e, wanted, n);
    } else {
      assert LinkStored(s.db, k);
      var u :| u in s.db.exports && s.db.exports[u].link == k;
      if s.db.exports[u].owner != e {
        OthersStay(s.db, s'.db, e, u);
      } else {
        var now, was := LinksNow(s.db, e, wanted), LinksBefore(s.db, e, wanted);
        assert u in was && k in was.Values && k in now.Values;
        var v :| v in now && now[v] == k;
        KeptStay(s.db, s'.db, e, wanted, v);
      }
    }
  }

  lemma NewDistinct(db: Database, next: Database, e: Name, wanted: map<string, Link>, u: Uuid, v: Uuid)
    requires Stored(db, next, e, wanted) && u in next.exports && v in next.exports
    requires IsNew(db, next, e, wanted, u) && IsNew(db, next, e, wanted, v) && next.exports[u].name == next.exports[v].name
    ensures u == v
  {
    var rows := ExportTable(next, e);
    assert u in rows && v in rows && rows[u].0 == rows[v].0;
  }

  lemma KeptDistinct(db: Database, next: Database, e: Name, wanted: map<string, Link>, u: Uuid, v: Uuid)
    requires forall i, j | i in db.exports && j in db.exports && db.exports[i].link == db.exports[j].link :: i == j
    requires LinksNow(db, e, wanted).Values == LinksBefore(db, e, wanted).Values
    requires u in next.exports && v in next.exports && next.exports[u].link == next.exports[v].link
    requires IsKept(db, next, e, wanted, u) && IsKept(db, next, e, wanted, v)
    ensures u == v
  {
    NowDistinct(db, e, wanted);
    var now := LinksNow(db, e, wanted);
    assert now[u] == now[v];
  }

  /** No kept export has the link of another element's export. */
  lemma SameOwner(s: State, next: Database, e: Name, wanted: map<string, Link>, u: Uuid, v: Uuid)
    requires Serving(s.db, s.ix, e) && LinksStay(s, e, wanted) && u in next.exports && v in next.exports
    requires next.exports[u].link == next.exports[v].link
    requires IsOther(s.db, next, e, u) || IsKept(s.db, next, e, wanted, u)
    requires IsOther(s.db, next, e, v) || IsKept(s.db, next, e, wanted, v)
    ensures IsOther(s.db, next, e, u) <==> IsOther(s.db, next, e, v)
  {
    if IsKept(s.db, next, e, wanted, u) {
      var w := KeptLink(s, e, wanted, u);
    }
    if IsKept(s.db, next, e, wanted, v) {
      var w := KeptLink(s, e, wanted, v);
    }
  }

  lemma RowsDistinct(s: State, s': State, e: Name, wanted: map<string, Link>, u: Uuid, v: Uuid)
    requires Serving(s.db, s.ix, e) && Ends(s, s', e, wanted) && Stored(s.db, s'.db, e, wanted)
    requires LinksStay(s, e, wanted) && u in s'.db.exports && v in s'.db.exports
    requires s'.db.exports[u].link == s'.db.exports[v].link
    ensures u == v
  {
    assert IsNew(s.db, s'.db, e, wanted, u) <==> IsNew(s.db, s'.db, e, wanted, v) by {
      RowIndexed(s, s', e, wanted, u);
      RowIndexed(s, s', e, wanted, v);
    }
    RowIs(s.db, s'.db, e, wanted, u);
    RowIs(s.db, s'.db, e, wanted, v);
    if IsNew(s.db, s'.db, e, wanted, u) {
      NewDistinct(s.db, s'.db, e, wanted, u, v);
    } else {
      SameOwner(s, s'.db, e, wanted, u, v);
      if !IsOther(s.db, s'.db, e, u) {
        KeptDistinct(s.db, s'.db, e, wanted, u, v);
      }
    }
  }

  lemma ExportedIf(s: State, s': State, e: Name, wanted: map<string, Link>)
    requires Serving(s.db, s.ix, e) && Ends(s, s', e, wanted) && Stored(s.db, s'.db, e, wanted)
    requires LinksStay(s, e, wanted)
    ensures Exported(s'.ix.namespaces, s'.ix.exports, s'.db.exports)
  {
    forall u | u in s'.db.exports
      ensures ExportedAt(s'.ix.namespaces, s'.ix.exports, s'.db.exports[u])
    {
      RowIndexed(s, s', e, wanted, u);
    }
    forall k | k in s'.ix.exports
      ensures LinkStored(s'.db, k)
    {
      LinkHasRow(s, s', e, wanted, k);
    }
    forall u, v | u in s'.db.exports && v in s'.db.exports && s'.db.exports[u].link == s'.db.exports[v].link
      ensures u == v
    {
      RowsDistinct(s, s', e, wanted, u, v);
    }
  }

  // ---- Only if ----

  lemma NewIsNotKept(s: State, s': State, e: Name, wanted: map<string, Link>, n: string, u: Uuid)
    requires Stored(s.db, s'.db, e, wanted) && Exported(s'.ix.namespaces, s'.ix.exports, s'.db.exports)
    requires New(s.db, e, wanted, n) && u in KeptRows(s.db, e, wanted)
    ensures wanted[n] != LinksNow(s.db, e, wanted)[u]
  {
    var v := NewStored(s.db, s'.db, e, wanted, n);
    KeptStay(s.db, s'.db, e, wanted, u);
  }

  lemma NowWasBefore(s: State, s': State, e: Name, wanted: map<string, Link>, u: Uuid)
    requires Serving(s.db, s.ix, e) && Ends(s, s', e, wanted) && Stored(s.db, s'.db, e, wanted)
    requires Exported(s'.ix.namespaces, s'.ix.exports, s'.db.exports) && u in KeptRows(s.db, e, wanted)
    ensures LinksNow(s.db, e, wanted)[u] in LinksBefore(s.db, e, wanted).Values
  {
    var k, was := LinksNow(s.db, e, wanted)[u], LinksBefore(s.db, e, wanted);
    KeptStay(s.db, s'.db, e, wanted, u);
    assert ExportedAt(s'.ix.namespaces, s'.ix.exports, s'.db.exports[u]);
    forall n | New(s.db, e, wanted, n)
      ensures wanted[n] != k
    {
      NewIsNotKept(s, s', e, wanted, n, u);
    }
    assert !NewLink(s.db, e, wanted, k);
    assert LinkStored(s.db, k);
    var v :| v in s.db.exports && s.db.exports[v].link == k;
    OthersStay(s.db, s'.db, e, v);
    assert v in was && was[v] == k;
  }

  lemma BeforeIsNow(s: State, s': State, e: Name, wanted: map<string, Link>, u: Uuid)
    requires Serving(s.db, s.ix, e) && Ends(s, s', e, wanted) && Stored(s.db, s'.db, e, wanted)
    requires Exported(s'.ix.namespaces, s'.ix.exports, s'.db.exports) && u in KeptRows(s.db, e, wanted)
    ensures s.db.exports[u].link in LinksNow(s.db, e, wanted).Values
    ensures ExportedAt(s.ix.namespaces, s.ix.exports, s.db.exports[u])
  {
    var k, now := s.db.exports[u].link, LinksNow(s.db, e, wanted);
    assert !GoneLink(s.db, e, wanted, k);
    forall n | New(s.db, e, wanted, n)
      ensures wanted[n] != k
    {
      assert NewAt(s, s'.ix, e, wanted[n]);
    }
    var v :| v in s'.db.exports && s'.db.exports[v].link == k;
    RowIs(s.db, s'.db, e, wanted, v);
    assert ExportedAt(s'.ix.namespaces, s'.ix.exports, s'.db.exports[v]);
    assert v in now && now[v] == k;
  }

  lemma StayIf(s: State, s': State, e: Name, wanted: map<string, Link>)
    requires Serving(s.db, s.ix, e) && Ends(s, s', e, wanted) && Stored(s.db, s'.db, e, wanted)
    requires Exported(s'.ix.namespaces, s'.ix.exports, s'.db.exports)
    ensures LinksStay(s, e, wanted)
  {
    var now, was := LinksNow(s.db, e, wanted), LinksBefore(s.db, e, wanted);
    assert now.Values <= was.Values by {
      forall u | u in KeptRows(s.db, e, wanted)
        ensures now[u] in was.Values
      {
        NowWasBefore(s, s', e, wanted, u);
      }
    }
    forall u | u in KeptRows(s.db, e, wanted)
      ensures was[u] in now.Values && ExportedAt(s.ix.namespaces, s.ix.exports, s.db.exports[u])
    {
      BeforeIsNow(s, s', e, wanted, u);
    }
    assert was.Values <= now.Values;
  }

  /** After the export phase the export index agrees with the rows if and only if the exports
      that were stored and stay have the same links as before, in any order, and each of
      these still leads to the entry it was indexed with. */
  lemma ExportedIff(s: State, e: Name, items: seq<ExportItem>)
    requires Sound(s.db) && e in s.db.elements && ExportsApplied(s, e, items).Ok? && Serving(s.db, s.ix, e)
    ensures var s' := ExportsApplied(s, e, items).value;
            Exported(s'.ix.namespaces, s'.ix.exports, s'.db.exports) <==> LinksStay(s, e, WantedExports(items))
  {
    var s', wanted := ExportsApplied(s, e, items).value, WantedExports(items);
    assert Stored(s.db, s'.db, e, wanted) by {
      ExportPhase(s, e, items);
    }
    PhaseEnds(s, e, items);
    if LinksStay(s, e, wanted) {
      ExportedIf(s, s', e, wanted);
    }
    if Exported(s'.ix.namespaces, s'.ix.exports, s'.db.exports) {
      StayIf(s, s', e, wanted);
    }
  }
}
