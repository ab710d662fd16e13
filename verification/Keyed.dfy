/** Lists of records with an identifier, and the dictionaries built from them. */
module Keyed {
  import opened Common

  /** `{key(x): x for x in xs}`. */
  function Table<T>(xs: seq<T>, key: T -> Uuid): map<Uuid, T> {
    if xs == [] then map[]
    else Table(xs[..|xs| - 1], key)[key(xs[|xs| - 1]) := xs[|xs| - 1]]
  }

  ghost predicate Has<T>(xs: seq<T>, key: T -> Uuid, u: Uuid) {
    exists x | x in xs :: key(x) == u
  }

  ghost predicate Distinct<T>(xs: seq<T>, key: T -> Uuid) {
    forall i, j | 0 <= i < j < |xs| :: key(xs[i]) != key(xs[j])
  }

  /** `list.remove`: the first element with this identifier goes. */
  function Without<T>(xs: seq<T>, key: T -> Uuid, u: Uuid): seq<T> {
    if xs == [] then []
    else if key(xs[0]) == u then xs[1..]
    else [xs[0]] + Without(xs[1..], key, u)
  }

  lemma TableAppend<T>(xs: seq<T>, key: T -> Uuid, x: T)
    ensures Table(xs + [x], key) == Table(xs, key)[key(x) := x]
  {
    assert (xs + [x])[..|xs|] == xs;
  }

  lemma DistinctAppend<T>(xs: seq<T>, key: T -> Uuid, x: T)
    requires Distinct(xs, key) && forall y | y in xs :: key(y) != key(x)
    ensures Distinct(xs + [x], key)
  {
    forall i | 0 <= i < |xs|
      ensures key(xs[i]) != key(x)
    {
      assert xs[i] in xs;
    }
  }

  lemma {:induction false} TableKeys<T>(xs: seq<T>, key: T -> Uuid)
    ensures forall u :: u in Table(xs, key) <==> Has(xs, key, u)
    ensures forall u :: u in Table(xs, key) ==> Table(xs, key)[u] in xs && key(Table(xs, key)[u]) == u
  {
    if xs != [] {
      TableKeys(xs[..|xs| - 1], key);
      assert xs == xs[..|xs| - 1] + [xs[|xs| - 1]];
      forall u
        ensures u in Table(xs, key) <==> Has(xs, key, u)
      {
      }
    }
  }

  /** In a list without repeated identifiers, the dictionary loses nothing. */
  lemma {:induction false} TableHolds<T>(xs: seq<T>, key: T -> Uuid)
    requires Distinct(xs, key)
    ensures forall x | x in xs :: key(x) in Table(xs, key) && Table(xs, key)[key(x)] == x
  {
    if xs != [] {
      TableHolds(xs[..|xs| - 1], key);
      assert xs == xs[..|xs| - 1] + [xs[|xs| - 1]];
    }
  }

  lemma {:induction false} WithoutElements<T>(xs: seq<T>, key: T -> Uuid, u: Uuid)
    requires Distinct(xs, key)
    ensures Distinct(Without(xs, key, u), key)
    ensures forall x | x in Without(xs, key, u) :: x in xs && key(x) != u
    ensures forall x | x in xs && key(x) != u :: x in Without(xs, key, u)
  {
    if xs != [] {
      var rest := Without(xs[1..], key, u);
      WithoutElements(xs[1..], key, u);
      if key(xs[0]) != u {
        assert Without(xs, key, u) == [xs[0]] + rest;
        forall i | 0 <= i < |rest|
          ensures key(rest[i]) != key(xs[0])
        {
          assert rest[i] in xs[1..];
        }
      }
    }
  }

  /** Removing from the list is removing from the dictionary. */
  lemma WithoutTable<T>(xs: seq<T>, key: T -> Uuid, u: Uuid)
    requires Distinct(xs, key)
    ensures Table(Without(xs, key, u), key) == Table(xs, key) - {u}
  {
    var ys := Without(xs, key, u);
    WithoutElements(xs, key, u);
    TableKeys(xs, key);
    TableKeys(ys, key);
    TableHolds(xs, key);
    TableHolds(ys, key);
    forall v
      ensures v in Table(ys, key) <==> v in Table(xs, key) && v != u
    {
      if v in Table(xs, key) && v != u {
        assert Table(xs, key)[v] in ys;
      }
      if v in Table(ys, key) {
        assert Table(ys, key)[v] in xs;
      }
    }
  }

  lemma RemoveThenPut<T>(m: map<Uuid, T>, u: Uuid, x: T)
    ensures (m - {u})[u := x] == m[u := x]
  {
  }

  lemma RemoveAbsent<T>(m: map<Uuid, T>, u: Uuid)
    requires u !in m
    ensures m - {u} == m
  {
  }

  lemma RemoveNothing<T>(m: map<Uuid, T>)
    ensures m - {} == m
  {
  }

  lemma RemoveTwice<T>(m: map<Uuid, T>, us: set<Uuid>, u: Uuid)
    ensures m - us - {u} == m - (us + {u})
  {
  }

  lemma AddNothing<T>(m: map<Uuid, T>)
    ensures m + map[] == m
  {
  }

  lemma AddThenPut<T>(m: map<Uuid, T>, n: map<Uuid, T>, u: Uuid, x: T)
    ensures (m + n)[u := x] == m + n[u := x]
  {
  }

  lemma PutBack<K, T>(m: map<K, T>, u: K, x: T)
    requires u in m && m[u] == x
    ensures m[u := x] == m
  {
  }

  lemma PutTwice<K, T>(m: map<K, T>, u: K, x: T, y: T)
    ensures m[u := x][u := y] == m[u := y]
  {
  }

  lemma RestoreOne<K, T>(m: map<K, T>, todo: set<K>, u: K)
    requires u in todo && u in m
    ensures (m - todo)[u := m[u]] == m - (todo - {u})
  {
  }

  lemma MoveOne<K>(all: set<K>, todo: set<K>, u: K)
    requires todo <= all && u in todo
    ensures all - (todo - {u}) == all - todo + {u}
  {
  }
}
