/**
 Bringing stored rows in line with named items: an item whose key is already stored
 updates that row, a new key is inserted, and the rows left over are deleted.
 */
module TableSync {
  import opened Common

  /** The rows of one owner: their keys and contents. */
  type Owned<K, C> = map<Uuid, (K, C)>

  ghost predicate OneEach<K, C>(rows: Owned<K, C>) {
    forall u, v | u in rows && v in rows && rows[u].0 == rows[v].0 :: u == v
  }

  ghost predicate HasKey<K, C>(rows: Owned<K, C>, k: K) {
    exists u :: u in rows && rows[u].0 == k
  }

  /** `{row.key: row for row in rows}`. */
  ghost function ByKey<K, C>(rows: Owned<K, C>): map<K, Uuid> {
    map k | k in (set u | u in rows :: rows[u].0) :: RowWith(rows, k)
  }

  ghost function RowWith<K, C>(rows: Owned<K, C>, k: K): Uuid
    requires HasKey(rows, k)
  {
    var u :| u in rows && rows[u].0 == k;
    u
  }

  /** While the items are applied: `left` are the old rows not met yet, `done` the items. */
  ghost predicate Synced<K, C>(before: Owned<K, C>, rows: Owned<K, C>, left: map<K, Uuid>, done: map<K, C>) {
    && OneEach(rows)
    && (forall k | k in left :: k !in done && left[k] in before && left[k] in rows && rows[left[k]].0 == k)
    && (forall u | u in rows ::
          var k := rows[u].0;
          if k in left then left[k] == u else k in done && done[k] == rows[u].1)
    && (forall k | k in done :: HasKey(rows, k))
    && (forall u | u in before :: u in rows && rows[u].0 == before[u].0)
  }

  /** The rows are the items, one row for each. */
  ghost predicate Realises<K, C>(rows: Owned<K, C>, done: map<K, C>) {
    && OneEach(rows)
    && (forall u | u in rows :: rows[u].0 in done && rows[u].1 == done[rows[u].0])
    && (forall k | k in done :: HasKey(rows, k))
  }

  /** Every old row whose key is still wanted is there, with its identifier. */
  ghost predicate Kept<K, C>(before: Owned<K, C>, rows: Owned<K, C>, done: map<K, C>) {
    forall u | u in before && before[u].0 in done :: u in rows && rows[u].0 == before[u].0
  }

  lemma ByKeyIsInverse<K, C>(rows: Owned<K, C>)
    requires OneEach(rows)
    ensures forall u | u in rows :: rows[u].0 in ByKey(rows) && ByKey(rows)[rows[u].0] == u
    ensures forall k | k in ByKey(rows) :: ByKey(rows)[k] in rows && rows[ByKey(rows)[k]].0 == k
  {
  }

  lemma IsByKey<K, C>(rows: Owned<K, C>, left: map<K, Uuid>)
    requires OneEach(rows)
    requires forall k | k in left :: left[k] in rows && rows[left[k]].0 == k
    requires forall u | u in rows :: rows[u].0 in left
    ensures left == ByKey(rows)
  {
    ByKeyIsInverse(rows);
  }

  lemma SyncStart<K, C>(rows: Owned<K, C>)
    requires OneEach(rows)
    ensures Synced(rows, rows, ByKey(rows), map[])
  {
    ByKeyIsInverse(rows);
  }

  lemma PutKeepsKeys<K, C>(rows: Owned<K, C>, u: Uuid, k: K, c: C)
    requires u in rows ==> rows[u].0 == k
    ensures HasKey(rows[u := (k, c)], k)
    ensures forall j :: HasKey(rows, j) ==> HasKey(rows[u := (k, c)], j)
  {
    var next := rows[u := (k, c)];
    assert u in next && next[u].0 == k;
    forall j | HasKey(rows, j)
      ensures HasKey(next, j)
    {
      var v :| v in rows && rows[v].0 == j;
      assert v in next && next[v].0 == j;
    }
  }

  lemma SyncUpdate<K, C>(before: Owned<K, C>, rows: Owned<K, C>, left: map<K, Uuid>, done: map<K, C>, k: K, c: C)
    requires Synced(before, rows, left, done) && k in left
    ensures Synced(before, rows[left[k] := (k, c)], left - {k}, done[k := c])
  {
    var u := left[k];
    PutKeepsKeys(rows, u, k, c);
  }

  lemma SyncInsert<K, C>(before: Owned<K, C>, rows: Owned<K, C>, left: map<K, Uuid>, done: map<K, C>, u: Uuid, k: K, c: C)
    requires Synced(before, rows, left, done) && k !in left && u !in rows && forall v | v in rows :: rows[v].0 != k
    ensures Synced(before, rows[u := (k, c)], left, done[k := c])
  {
    PutKeepsKeys(rows, u, k, c);
  }

  lemma SyncDrop<K, C>(before: Owned<K, C>, rows: Owned<K, C>, left: map<K, Uuid>, done: map<K, C>)
    requires Synced(before, rows, left, done)
    ensures Realises(rows - left.Values, done) && Kept(before, rows - left.Values, done)
  {
    var rows' := rows - left.Values;
    forall u | u in rows
      ensures u in rows' <==> rows[u].0 in done
    {
    }
    forall k | k in done
      ensures HasKey(rows', k)
    {
      var u :| u in rows && rows[u].0 == k;
      assert u in rows' && rows'[u].0 == k;
    }
  }
}
