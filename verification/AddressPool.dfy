/**
 The list of free address intervals kept by the IP address manager, as a value:
 what `occupy_ip`, `allocate_ip` and `deallocate_ip` do to one list, and what
 that means for the set of free addresses.
 */
module AddressPool {
  import opened Common

  datatype Range = Range(lo: int, hi: int)

  /** `netaddr.IPRange` and `netaddr.IPNetwork` values are never empty. */
  type AddressRange = r: Range | r.lo <= r.hi witness Range(0, 0)

  type Pool = seq<Range>

  predicate Contains(r: Range, x: int) {
    r.lo <= x <= r.hi
  }

  ghost function Interval(r: Range): set<int> {
    set x: int | r.lo <= x <= r.hi && Contains(r, x)
  }

  /** The free addresses a list of intervals stands for. */
  ghost function Addresses(p: Pool): set<int> {
    if p == [] then {} else Interval(p[0]) + Addresses(p[1..])
  }

  /** Sorted, no empty interval, at least one taken address between neighbours. */
  ghost predicate Normal(p: Pool) {
    p != [] ==>
      && p[0].lo <= p[0].hi
      && (|p| > 1 ==> p[0].hi + 1 < p[1].lo)
      && Normal(p[1..])
  }

  /** `a` is the first or the last address of an interval of `p`. */
  ghost predicate IsEndpoint(p: Pool, a: int) {
    exists r | r in p :: a == r.lo || a == r.hi
  }

  // ---- What the three operations do to the list ----

  function Occupied(p: Pool, a: int): Pool {
    if p == [] then []
    else
      var s, e := p[0].lo, p[0].hi;
      if s == e && s == a then p[1..]
      else if a == s then [Range(s + 1, e)] + p[1..]
      else if a == e then [Range(s, e - 1)] + p[1..]
      else if s < a < e then [Range(s, a - 1), Range(a + 1, e)] + p[1..]
      else [p[0]] + Occupied(p[1..], a)
  }

  function Freed(p: Pool, a: int): Pool {
    if p == [] then [Range(a, a)]
    else
      var s, e := p[0].lo, p[0].hi;
      if a < s - 1 then [Range(a, a)] + p
      else if a == s - 1 then [Range(s - 1, e)] + p[1..]
      else if a == e + 1 then
        if |p| > 1 && p[1].lo - 1 == a then [Range(s, p[1].hi)] + p[2..]
        else [Range(s, e + 1)] + p[1..]
      else if s < a < e then p
      else [p[0]] + Freed(p[1..], a)
  }

  /** The list after handing out its first address. */
  function FirstTaken(p: Pool): Pool
    requires p != []
  {
    if p[0].lo == p[0].hi then p[1..] else [Range(p[0].lo + 1, p[0].hi)] + p[1..]
  }

  // ---- The same, one loop iteration at a time ----

  lemma SetSlices(p: Pool, i: nat, r: Range)
    requires i < |p|
    ensures p[i := r] == p[..i] + ([r] + p[i + 1..])
    ensures p[i := r][..i + 1] == p[..i] + [r]
    ensures p[i := r][i + 1..] == p[i + 1..]
    ensures i + 1 < |p| ==> p[i := r][i + 2..] == p[i + 2..]
  {
  }

  lemma OccupiedStep(p: Pool, i: nat, a: int)
    requires i < |p|
    ensures p[..i] + Occupied(p[i..], a) ==
      var s, e := p[i].lo, p[i].hi;
      if s == e && s == a then p[..i] + p[i + 1..]
      else if a == s then p[i := Range(s + 1, e)]
      else if a == e then p[i := Range(s, e - 1)]
      else if s < a < e then
        var q := p[i := Range(s, a - 1)];
        q[..i + 1] + [Range(a + 1, e)] + q[i + 1..]
      else p[..i + 1] + Occupied(p[i + 1..], a)
  {
    var q := p[i..];
    assert q[0] == p[i] && q[1..] == p[i + 1..];
    var s, e := p[i].lo, p[i].hi;
    if s == e && s == a {
    } else if a == s {
      SetSlices(p, i, Range(s + 1, e));
    } else if a == e {
      SetSlices(p, i, Range(s, e - 1));
    } else if s < a < e {
      SetSlices(p, i, Range(s, a - 1));
    } else {
      assert p[..i + 1] == p[..i] + [p[i]];
    }
  }

  lemma FreedStep(p: Pool, i: nat, a: int)
    requires i < |p|
    ensures p[..i] + Freed(p[i..], a) ==
      var s, e := p[i].lo, p[i].hi;
      if a < s - 1 then p[..i] + [Range(a, a)] + p[i..]
      else if a == s - 1 then p[i := Range(s - 1, e)]
      else if a == e + 1 then
        if i + 1 < |p| && p[i + 1].lo - 1 == a then
          var q := p[i := Range(s, p[i + 1].hi)];
          q[..i + 1] + q[i + 2..]
        else p[i := Range(s, e + 1)]
      else if s < a < e then p
      else p[..i + 1] + Freed(p[i + 1..], a)
  {
    var q := p[i..];
    assert q[0] == p[i] && q[1..] == p[i + 1..];
    assert p == p[..i] + q;
    var s, e := p[i].lo, p[i].hi;
    if a < s - 1 {
    } else if a == s - 1 {
      SetSlices(p, i, Range(s - 1, e));
    } else if a == e + 1 {
      if i + 1 < |p| && p[i + 1].lo - 1 == a {
        assert q[1] == p[i + 1] && q[2..] == p[i + 2..];
        SetSlices(p, i, Range(s, p[i + 1].hi));
      } else {
        SetSlices(p, i, Range(s, e + 1));
      }
    } else if s < a < e {
    } else {
      assert p[..i + 1] == p[..i] + [p[i]];
    }
  }

  /** Every address of `addresses` occupied, in order. */
  function OccupiedAll(p: Pool, addresses: seq<int>): Pool
    decreases addresses
  {
    if addresses == [] then p else OccupiedAll(Occupied(p, addresses[0]), addresses[1..])
  }

  // ---- Meaning ----

  lemma {:induction false} NormalBounds(p: Pool)
    requires Normal(p) && p != []
    ensures forall x :: x in Addresses(p) ==> p[0].lo <= x
    ensures p[0].lo in Addresses(p)
    ensures forall x :: x in Addresses(p[1..]) ==> p[0].hi + 1 < x
  {
    if |p| > 1 {
      NormalBounds(p[1..]);
    }
  }

  lemma ConsMeaning(r: Range, q: Pool)
    ensures Addresses([r] + q) == Interval(r) + Addresses(q)
    ensures Normal([r] + q) <==> r.lo <= r.hi && (q != [] ==> r.hi + 1 < q[0].lo) && Normal(q)
  {
    assert ([r] + q)[1..] == q;
  }

  lemma EndpointsBeyond(p: Pool, a: int)
    requires Normal(p) && p != []
    ensures a <= p[0].hi + 1 ==> !IsEndpoint(p[1..], a)
  {
    EndpointsAreFree(p[1..]);
    NormalBounds(p);
  }

  lemma {:induction false} EndpointsAreFree(p: Pool)
    requires Normal(p)
    ensures forall r :: r in p ==> r.lo <= r.hi && r.lo in Addresses(p) && r.hi in Addresses(p)
  {
    if p != [] {
      EndpointsAreFree(p[1..]);
    }
  }

  lemma {:induction false} OccupiedAt(p: Pool, a: int, x: int)
    requires Normal(p)
    ensures x in Addresses(Occupied(p, a)) <==> x in Addresses(p) && x != a
  {
    if p != [] {
      NormalBounds(p);
      var s, e := p[0].lo, p[0].hi;
      if s == e && s == a {
      } else if a == s || a == e {
        assert Occupied(p, a)[1..] == p[1..];
      } else if s < a < e {
        ConsMeaning(Range(a + 1, e), p[1..]);
        assert Occupied(p, a)[1..] == [Range(a + 1, e)] + p[1..];
      } else {
        OccupiedAt(p[1..], a, x);
        assert Occupied(p, a)[1..] == Occupied(p[1..], a);
      }
    }
  }

  lemma {:induction false} OccupiedNormal(p: Pool, a: int)
    requires Normal(p)
    ensures Normal(Occupied(p, a))
    ensures Occupied(p, a) != [] ==> p != [] && p[0].lo <= Occupied(p, a)[0].lo
  {
    if p != [] {
      var s, e := p[0].lo, p[0].hi;
      if s == e && s == a {
      } else if a == s || a == e {
        assert Occupied(p, a)[1..] == p[1..];
      } else if s < a < e {
        ConsMeaning(Range(a + 1, e), p[1..]);
        assert Occupied(p, a)[1..] == [Range(a + 1, e)] + p[1..];
      } else {
        OccupiedNormal(p[1..], a);
        assert Occupied(p, a)[1..] == Occupied(p[1..], a);
      }
    }
  }

  /** Occupying removes exactly the named address, and keeps the normal form,
      whether or not the address was free. */
  lemma OccupiedMeaning(p: Pool, a: int)
    requires Normal(p)
    ensures Normal(Occupied(p, a))
    ensures Addresses(Occupied(p, a)) == Addresses(p) - {a}
  {
    OccupiedNormal(p, a);
    forall x
      ensures x in Addresses(Occupied(p, a)) <==> x in Addresses(p) - {a}
    {
      OccupiedAt(p, a, x);
    }
  }

  lemma {:induction false} FreedAt(p: Pool, a: int, x: int)
    requires Normal(p)
    ensures x in Addresses(Freed(p, a)) <==> x in Addresses(p) || x == a
  {
    if p != [] {
      var s, e := p[0].lo, p[0].hi;
      var q := Freed(p, a);
      if a < s - 1 {
        assert q[1..] == p;
      } else if a == e + 1 && |p| > 1 && p[1].lo - 1 == a {
        assert q[1..] == p[2..] == p[1..][1..];
      } else if a == s - 1 || a == e + 1 {
        assert q[1..] == p[1..];
      } else if s < a < e {
      } else {
        FreedAt(p[1..], a, x);
        assert q[1..] == Freed(p[1..], a);
      }
    }
  }

  lemma {:induction false} FreedNormal(p: Pool, a: int)
    requires Normal(p)
    ensures Normal(Freed(p, a)) <==> !IsEndpoint(p, a)
    ensures p != [] ==> Freed(p, a)[0].lo == if a < p[0].lo then a else p[0].lo
  {
    if p != [] {
      var s, e := p[0].lo, p[0].hi;
      var q := Freed(p, a);
      assert IsEndpoint(p, a) <==> a == s || a == e || IsEndpoint(p[1..], a);
      EndpointsBeyond(p, a);
      if a < s - 1 {
        assert q[1..] == p;
      } else if a == e + 1 && |p| > 1 && p[1].lo - 1 == a {
        assert q[1..] == p[2..] == p[1..][1..];
      } else if a == s - 1 || a == e + 1 {
        assert q[1..] == p[1..];
      } else if s < a < e {
      } else {
        FreedNormal(p[1..], a);
        assert q[1..] == Freed(p[1..], a);
      }
    }
  }

  /** Freeing adds exactly the named address.  The list stays in normal form
      exactly when the address is not an end of an interval it already has. */
  lemma {:induction false} FreedMeaning(p: Pool, a: int)
    requires Normal(p)
    ensures Addresses(Freed(p, a)) == Addresses(p) + {a}
    ensures Normal(Freed(p, a)) <==> !IsEndpoint(p, a)
  {
    FreedNormal(p, a);
    forall x
      ensures x in Addresses(Freed(p, a)) <==> x in Addresses(p) + {a}
    {
      FreedAt(p, a, x);
    }
  }

  /** The list is determined by the set it stands for. */
  lemma {:induction false} NormalFormUnique(p: Pool, q: Pool)
    requires Normal(p) && Normal(q) && Addresses(p) == Addresses(q)
    ensures p == q
  {
    if p == [] {
      if q != [] {
        NormalBounds(q);
      }
    } else if q == [] {
      NormalBounds(p);
    } else {
      NormalBounds(p);
      NormalBounds(q);
      assert p[0].lo == q[0].lo;
      assert p[0].hi == q[0].hi by {
        assert p[0].hi + 1 !in Addresses(p) && q[0].hi + 1 !in Addresses(q);
      }
      forall x
        ensures x in Addresses(p[1..]) <==> x in Addresses(q[1..])
      {
        assert x in Addresses(p[1..]) <==> x in Addresses(p) && p[0].hi < x;
        assert x in Addresses(q[1..]) <==> x in Addresses(q) && q[0].hi < x;
      }
      NormalFormUnique(p[1..], q[1..]);
    }
  }

  /** An address that is not free can be freed without breaking the normal form. */
  lemma {:induction false} FreeingTakenKeepsNormal(p: Pool, a: int)
    requires Normal(p) && a !in Addresses(p)
    ensures Normal(Freed(p, a))
    ensures Addresses(Freed(p, a)) == Addresses(p) + {a}
  {
    EndpointsAreFree(p);
    FreedMeaning(p, a);
  }

  /** Freeing a just-occupied address restores the very list, split included. */
  lemma {:induction false} FreeUndoesOccupy(p: Pool, a: int)
    requires Normal(p) && a in Addresses(p)
    ensures Freed(Occupied(p, a), a) == p
  {
    OccupiedMeaning(p, a);
    FreeingTakenKeepsNormal(Occupied(p, a), a);
    NormalFormUnique(Freed(Occupied(p, a), a), p);
  }

  /** Occupying a just-freed address restores the very list, merge included. */
  lemma {:induction false} OccupyUndoesFree(p: Pool, a: int)
    requires Normal(p) && a !in Addresses(p)
    ensures Normal(Freed(p, a))
    ensures Occupied(Freed(p, a), a) == p
  {
    FreeingTakenKeepsNormal(p, a);
    OccupiedMeaning(Freed(p, a), a);
    NormalFormUnique(Occupied(Freed(p, a), a), p);
  }

  /** The address handed out first is the least free one, and it is the same as
      occupying that address. */
  lemma {:induction false} FirstIsLeast(p: Pool)
    requires Normal(p) && p != []
    ensures p[0].lo in Addresses(p)
    ensures forall x :: x in Addresses(p) ==> p[0].lo <= x
    ensures FirstTaken(p) == Occupied(p, p[0].lo)
  {
    NormalBounds(p);
  }

  /** A list in normal form is empty exactly when nothing is free. */
  lemma EmptyMeansNoneFree(p: Pool)
    requires Normal(p)
    ensures p == [] <==> Addresses(p) == {}
  {
    if p != [] {
      NormalBounds(p);
    }
  }

  ghost function Elements(s: seq<int>): set<int> {
    set a | a in s
  }

  lemma {:induction false} OccupiedAllMeaning(p: Pool, addresses: seq<int>)
    requires Normal(p)
    ensures Normal(OccupiedAll(p, addresses))
    ensures Addresses(OccupiedAll(p, addresses)) == Addresses(p) - Elements(addresses)
    decreases addresses
  {
    if addresses != [] {
      OccupiedMeaning(p, addresses[0]);
      OccupiedAllMeaning(Occupied(p, addresses[0]), addresses[1..]);
      assert Elements(addresses) == {addresses[0]} + Elements(addresses[1..]);
    }
  }

  /** Neither the order nor the duplication of the taken addresses matters. */
  lemma OccupiedAllOrderIrrelevant(p: Pool, a: seq<int>, b: seq<int>)
    requires Normal(p) && Elements(a) == Elements(b)
    ensures OccupiedAll(p, a) == OccupiedAll(p, b)
  {
    OccupiedAllMeaning(p, a);
    OccupiedAllMeaning(p, b);
    NormalFormUnique(OccupiedAll(p, a), OccupiedAll(p, b));
  }
}
