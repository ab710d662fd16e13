/**
 Whole histories of one subnet's pool: any sequence of allocations, allocations of a
 named address, and deallocations.
 */
module PoolRuns {
  import opened Common
  import opened AddressPool
  import Ipam

  datatype Op = Take | TakeAt(address: int) | Release(address: int)

  /** `live` are the addresses handed out and not yet given back, once for each holder. */
  datatype History = History(pool: Pool, live: multiset<int>)

  function Apply(h: History, op: Op): History {
    match op
    case Take =>
      if h.pool == [] then h else History(FirstTaken(h.pool), h.live + multiset{h.pool[0].lo})
    case TakeAt(a) =>
      if h.pool == [] then h else History(Occupied(h.pool, a), h.live + multiset{a})
    case Release(a) =>
      History(Freed(h.pool, a), h.live - multiset{a})
  }

  function ApplyAll(h: History, ops: seq<Op>): History
    decreases ops
  {
    if ops == [] then h else ApplyAll(Apply(h, ops[0]), ops[1..])
  }

  /** What the manager does to this subnet's list, and what it answers. */
  function Requested(pools: Ipam.Pools, subnet: Uuid, op: Op): (Option<int>, Ipam.Pools) {
    match op
    case Release(a) => (None, Ipam.Deallocated(pools, subnet, a))
    case _ =>
      var (r, next) := Ipam.Allocated(pools, subnet, if op.TakeAt? then Some(op.address) else None);
      (if r.Ok? then Some(r.value) else None, next)
  }

  /** A request of the history is a request to the manager: the list becomes the one the
      manager leaves, no other subnet's list changes, and the address it answers is live. */
  lemma RequestIsApplied(pools: Ipam.Pools, subnet: Uuid, live: multiset<int>, op: Op)
    requires subnet in pools
    ensures var (answer, next) := Requested(pools, subnet, op);
            var h := Apply(History(pools[subnet], live), op);
            && next == pools[subnet := h.pool]
            && h.live == match op
                         case Release(a) => live - multiset{a}
                         case _ => if answer.Some? then live + multiset{answer.value} else live
  {
    if pools[subnet] == [] {
      assert pools[subnet := pools[subnet]] == pools;
    }
  }

  /** Every address of `universe` is free or has one holder, never both and never two. */
  ghost predicate Conserved(h: History, universe: set<int>) {
    Normal(h.pool) && multiset(Addresses(h.pool)) + h.live == multiset(universe)
  }

  /** What a caller has to check: a named address is free, and an address given back
      belongs to the subnet and is not the end of a free interval (any live address will do). */
  ghost predicate Admissible(h: History, universe: set<int>, op: Op) {
    match op
    case Take => true
    case TakeAt(a) => h.pool == [] || a in Addresses(h.pool)
    case Release(a) => a in universe && !IsEndpoint(h.pool, a)
  }

  lemma CountedOnce(h: History, universe: set<int>, a: int)
    requires Conserved(h, universe)
    ensures h.live[a] == if a in universe && a !in Addresses(h.pool) then 1 else 0
  {
    assert multiset(universe)[a] == multiset(Addresses(h.pool))[a] + h.live[a];
  }

  /** Taking a free address moves it, taking another one breaks the count. */
  lemma TakingConservesIff(h: History, universe: set<int>, a: int)
    requires Conserved(h, universe)
    ensures Conserved(History(Occupied(h.pool, a), h.live + multiset{a}), universe) <==> a in Addresses(h.pool)
  {
    OccupiedMeaning(h.pool, a);
    CountedOnce(h, universe, a);
    var free, left := Addresses(h.pool), Addresses(Occupied(h.pool, a));
    if a in free {
      assert multiset(free) == multiset(left) + multiset{a};
    } else {
      assert (multiset(left) + (h.live + multiset{a}))[a] == h.live[a] + 1;
      assert multiset(universe)[a] == h.live[a];
    }
  }

  lemma ReleasingConservesIff(h: History, universe: set<int>, a: int)
    requires Conserved(h, universe)
    ensures Conserved(Apply(h, Release(a)), universe) <==> Admissible(h, universe, Release(a))
  {
    FreedMeaning(h.pool, a);
    EndpointsAreFree(h.pool);
    CountedOnce(h, universe, a);
    var free, more := Addresses(h.pool), Addresses(Freed(h.pool, a));
    var next := multiset(more) + (h.live - multiset{a});
    if a in universe {
      if a in free {
        assert more == free && h.live - multiset{a} == h.live;
      } else {
        assert multiset(more) == multiset(free) + multiset{a};
        assert h.live == (h.live - multiset{a}) + multiset{a};
      }
      assert next == multiset(universe);
    } else {
      assert next[a] >= multiset(more)[a] == 1;
    }
  }

  /** One request keeps every address single exactly when it is admissible. */
  lemma {:induction false} StepConservesIff(h: History, universe: set<int>, op: Op)
    requires Conserved(h, universe)
    ensures Conserved(Apply(h, op), universe) <==> Admissible(h, universe, op)
  {
    match op
    case Take =>
      if h.pool != [] {
        FirstIsLeast(h.pool);
        TakingConservesIff(h, universe, h.pool[0].lo);
      }
    case TakeAt(a) =>
      if h.pool != [] {
        TakingConservesIff(h, universe, a);
      }
    case Release(a) =>
      ReleasingConservesIff(h, universe, a);
  }

  lemma {:induction false} LiveReleaseIsAdmissible(h: History, universe: set<int>, a: int)
    requires Conserved(h, universe) && a in h.live
    ensures Admissible(h, universe, Release(a))
  {
    CountedOnce(h, universe, a);
    EndpointsAreFree(h.pool);
  }

  ghost predicate AdmissibleRun(h: History, universe: set<int>, ops: seq<Op>)
    decreases ops
  {
    ops != [] ==>
      Admissible(h, universe, ops[0]) && AdmissibleRun(Apply(h, ops[0]), universe, ops[1..])
  }

  /** Conserved now and after every further step. */
  ghost predicate ConservedThroughout(h: History, universe: set<int>, ops: seq<Op>)
    decreases ops
  {
    Conserved(h, universe) && (ops != [] ==> ConservedThroughout(Apply(h, ops[0]), universe, ops[1..]))
  }

  /** Over every history: nothing is lost or doubled at any point exactly when every
      request was admissible when it was made. */
  lemma {:induction false} RunConservesIff(h: History, universe: set<int>, ops: seq<Op>)
    requires Conserved(h, universe)
    ensures ConservedThroughout(h, universe, ops) <==> AdmissibleRun(h, universe, ops)
    ensures AdmissibleRun(h, universe, ops) ==> Conserved(ApplyAll(h, ops), universe)
    decreases ops
  {
    if ops != [] {
      StepConservesIff(h, universe, ops[0]);
      if Conserved(Apply(h, ops[0]), universe) {
        RunConservesIff(Apply(h, ops[0]), universe, ops[1..]);
      }
    }
  }

  /** Giving an address back twice: it is then handed out twice in a row. */
  lemma DoubleReleaseHandsOutTwice(a: int)
    ensures var h := ApplyAll(History([], multiset{a}), [Release(a), Release(a), Take]);
            h.pool != [] && h.pool[0].lo == a && a in h.live
  {
    var ops := [Release(a), Release(a), Take];
    assert ops[1..] == [Release(a), Take] && ops[1..][1..] == [Take];
    var h1 := Apply(History([], multiset{a}), Release(a));
    var h2 := Apply(h1, Release(a));
    assert h1.pool == [Range(a, a)];
    assert h1.pool[1..] == [];
    assert h2.pool == [Range(a, a), Range(a, a)];
    assert ApplyAll(h2, [Take]) == ApplyAll(Apply(h2, Take), [Take][1..]);
    assert ApplyAll(h1, [Release(a), Take]) == ApplyAll(h2, [Release(a), Take][1..]);
  }

  /** A named address is handed out although it has a holder; when one of the two gives it
      back, it is handed out yet again. */
  lemma NamedAddressHandsOutTwice()
    ensures var h := ApplyAll(History([Range(2, 3)], multiset{1}), [TakeAt(1), Release(1), Take]);
            Conserved(History([Range(2, 3)], multiset{1}), {1, 2, 3}) && h.live[1] == 2
  {
    var h0 := History([Range(2, 3)], multiset{1});
    var ops := [TakeAt(1), Release(1), Take];
    assert h0.pool[1..] == [] && Addresses([]) == {};
    assert Addresses(h0.pool) == {2, 3};
    assert multiset({2, 3}) + multiset{1} == multiset({1, 2, 3});
    assert ops[1..] == [Release(1), Take] && ops[1..][1..] == [Take];
    var h1 := Apply(h0, TakeAt(1));
    assert h1 == History([Range(2, 3)], multiset{1, 1});
    var h2 := Apply(h1, Release(1));
    assert h2 == History([Range(1, 3)], multiset{1});
    var h3 := Apply(h2, Take);
    assert h3.live == multiset{1, 1};
    assert ApplyAll(h1, [Release(1), Take]) == ApplyAll(h2, [Release(1), Take][1..]);
    assert ApplyAll(h2, [Take]) == ApplyAll(h3, [Take][1..]);
  }
}
