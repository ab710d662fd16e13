/**
 Placing nodes and volumes into machine pools: reuse of spare volumes, storage
 accounting, and what is left of the pools' cores and memory.
 */
module PoolPlacement {
  import opened Common
  import opened Selection

  datatype Volume = Volume(uuid: Uuid, size: int, image: Option<string>)

  /** A pool volume that is bound to nothing. */
  datatype Spare = Spare(uuid: Uuid, size: int, image: Option<string>)

  datatype Node = Node(uuid: Uuid, cores: int, ram: int, volumes: seq<Volume>)

  /** A thin storage pool; capacity is truncated to an integer. */
  datatype Storage = Storage(usable: nat, ratio: real, provisioned: int) {
    function Capacity(): int {
      (usable as real * ratio).Floor
    }

    function Available(): int {
      Capacity() - provisioned
    }

    function Allocate(size: int): Storage {
      this.(provisioned := provisioned + size)
    }
  }

  /** A machine pool with its spare volumes, as filters and weighters see it. */
  datatype Pool = Pool(uuid: Uuid, cores: int, ram: int, storage: seq<Storage>, spares: seq<Spare>)

  /** The pool volume a node volume gets: a new one, or a spare bound to it. */
  datatype Binding = Created(volume: Volume) | Reused(spare: Spare, volume: Volume)

  // ---- One volume ----

  predicate Fits(s: Spare, v: Volume) {
    s.image == v.image && s.size <= v.size
  }

  /** The first of the largest spares that fit, among the first `n`. */
  function BestSpare(spares: seq<Spare>, v: Volume, n: nat): (r: Option<nat>)
    requires n <= |spares|
    ensures r.Some? ==> r.value < n && Fits(spares[r.value], v)
    ensures r.Some? ==> forall j | 0 <= j < n && Fits(spares[j], v) :: spares[j].size <= spares[r.value].size
    ensures r.Some? ==> forall j | 0 <= j < r.value && Fits(spares[j], v) :: spares[j].size < spares[r.value].size
    ensures r.None? ==> forall j | 0 <= j < n :: !Fits(spares[j], v)
  {
    if n == 0 then None
    else
      var k := n - 1;
      var r := BestSpare(spares, v, k);
      if Fits(spares[k], v) && (r.None? || spares[k].size > spares[r.value].size) then Some(k) else r
  }

  /** The spare to reuse, if the volume has an image and the growth fits the storage. */
  function Reusable(p: Pool, v: Volume): (r: Option<nat>)
    requires p.storage != []
    ensures r.Some? ==> r.value < |p.spares|
  {
    var best := BestSpare(p.spares, v, |p.spares|);
    if v.image.None? || best.None? then None
    else
      var need := v.size - p.spares[best.value].size;
      if need != 0 && p.storage[0].Available() < need then None else best
  }

  function BindingFor(p: Pool, v: Volume): Binding
    requires p.storage != []
  {
    var r := Reusable(p, v);
    if r.Some? then Reused(p.spares[r.value], v) else Created(v)
  }

  /** The storage a binding takes. */
  function Growth(b: Binding): int {
    match b
    case Created(v) => v.size
    case Reused(s, v) => v.size - s.size
  }

  function PoolAfterVolume(p: Pool, v: Volume): Pool
    requires p.storage != []
  {
    var r := Reusable(p, v);
    var grown := p.(storage := p.storage[0 := p.storage[0].Allocate(Growth(BindingFor(p, v)))]);
    if r.Some? then grown.(spares := p.spares[..r.value] + p.spares[r.value + 1..]) else grown
  }

  /** Volumes one after the other. */
  function PoolAfterVolumes(p: Pool, vs: seq<Volume>): (r: Pool)
    requires vs != [] ==> p.storage != []
    ensures |r.storage| == |p.storage| && r.uuid == p.uuid && r.cores == p.cores && r.ram == p.ram
  {
    if vs == [] then p
    else PoolAfterVolume(PoolAfterVolumes(p, vs[..|vs| - 1]), vs[|vs| - 1])
  }

  function Bindings(p: Pool, vs: seq<Volume>): (r: seq<Binding>)
    requires vs != [] ==> p.storage != []
    ensures |r| == |vs|
  {
    if vs == [] then []
    else Bindings(p, vs[..|vs| - 1]) + [BindingFor(PoolAfterVolumes(p, vs[..|vs| - 1]), vs[|vs| - 1])]
  }

  // ---- What holds of any number of placements ----

  /** What was asked for, and what was there already. */
  function Requested(vs: seq<Volume>): int {
    if vs == [] then 0 else Requested(vs[..|vs| - 1]) + vs[|vs| - 1].size
  }

  function Occupied(ss: seq<Spare>): int {
    if ss == [] then 0 else Occupied(ss[..|ss| - 1]) + ss[|ss| - 1].size
  }

  /** The spares that bindings took, in order. */
  function Taken(bs: seq<Binding>): seq<Spare> {
    if bs == [] then []
    else Taken(bs[..|bs| - 1]) + if bs[|bs| - 1].Reused? then [bs[|bs| - 1].spare] else []
  }

  /** A largest spare of the volume's image that is not above the request. */
  ghost predicate LargestFit(p: Pool, v: Volume, s: Spare) {
    && s in p.spares && s.image == v.image && s.size <= v.size
    && (forall t | t in p.spares && t.image == v.image && t.size <= v.size :: t.size <= s.size)
  }

  /** A spare is reused exactly when the volume has an image and the largest spare with this
      image not exceeding the request can grow to it; it is then such a spare. */
  lemma ReusedIffGrowable(p: Pool, v: Volume)
    requires p.storage != []
    ensures BindingFor(p, v).volume == v
    ensures BindingFor(p, v).Reused? ==> LargestFit(p, v, BindingFor(p, v).spare)
    ensures var storage := p.storage[0];
            BindingFor(p, v).Reused? <==>
              && v.image.Some?
              && exists s :: LargestFit(p, v, s) &&
                   (s.size == v.size || storage.provisioned + v.size - s.size <= (storage.usable as real * storage.ratio).Floor)
  {
    var best := BestSpare(p.spares, v, |p.spares|);
    if best.Some? {
      var s := p.spares[best.value];
      assert LargestFit(p, v, s);
      forall t | LargestFit(p, v, t)
        ensures t.size == s.size
      {
        var j :| 0 <= j < |p.spares| && p.spares[j] == t;
      }
    }
  }

  /** Over any placements: each volume, in order, gets a new pool volume, or a spare of the
      pool with its own image that is not larger. */
  lemma {:induction false} BindingsFit(p: Pool, vs: seq<Volume>)
    requires vs != [] ==> p.storage != []
    ensures var bs := Bindings(p, vs);
            forall i | 0 <= i < |vs| ::
              && bs[i].volume == vs[i]
              && (bs[i].Reused? ==>
                    bs[i].spare in p.spares && vs[i].image.Some? && bs[i].spare.image == vs[i].image && bs[i].spare.size <= vs[i].size)
  {
    if vs != [] {
      var k := |vs| - 1;
      BindingsFit(p, vs[..k]);
      var before := PoolAfterVolumes(p, vs[..k]);
      ReusedIffGrowable(before, vs[k]);
      SparesShrink(p, vs[..k]);
    }
  }

  lemma {:induction false} SparesShrink(p: Pool, vs: seq<Volume>)
    requires vs != [] ==> p.storage != []
    ensures forall s | s in PoolAfterVolumes(p, vs).spares :: s in p.spares
  {
    if vs != [] {
      SparesShrink(p, vs[..|vs| - 1]);
    }
  }

  /** Only the storage counter and the taken spare change. */
  lemma PlacementConserves(p: Pool, v: Volume)
    requires p.storage != []
    ensures var b, p' := BindingFor(p, v), PoolAfterVolume(p, v);
            && p'.storage[0].provisioned == p.storage[0].provisioned + v.size - (if b.Reused? then b.spare.size else 0)
            && multiset(p.spares) == multiset(p'.spares) + multiset(if b.Reused? then [b.spare] else [])
  {
    var r := Reusable(p, v);
    if r.Some? {
      var i := r.value;
      assert p.spares == p.spares[..i] + [p.spares[i]] + p.spares[i + 1..];
    }
  }

  lemma BindingsStep(p: Pool, vs: seq<Volume>)
    requires vs != [] && p.storage != []
    ensures var k := |vs| - 1;
            var b := BindingFor(PoolAfterVolumes(p, vs[..k]), vs[k]);
            Taken(Bindings(p, vs)) == Taken(Bindings(p, vs[..k])) + if b.Reused? then [b.spare] else []
  {
    var k := |vs| - 1;
    var bs := Bindings(p, vs);
    assert bs[..k] == Bindings(p, vs[..k]);
  }

  /** Over any number of placements into one pool: the storage counter grows by exactly what
      was asked for minus what was reused, and every spare is still there or was taken once. */
  lemma {:induction false} PlacementsConserve(p: Pool, vs: seq<Volume>)
    requires vs != [] ==> p.storage != []
    ensures p.storage != [] ==>
              PoolAfterVolumes(p, vs).storage[0].provisioned ==
              p.storage[0].provisioned + Requested(vs) - Occupied(Taken(Bindings(p, vs)))
    ensures multiset(p.spares) == multiset(PoolAfterVolumes(p, vs).spares) + multiset(Taken(Bindings(p, vs)))
  {
    if vs != [] {
      var k := |vs| - 1;
      PlacementsConserve(p, vs[..k]);
      PlacementConserves(PoolAfterVolumes(p, vs[..k]), vs[k]);
      BindingsStep(p, vs);
      OccupiedAppend(Taken(Bindings(p, vs[..k])), BindingFor(PoolAfterVolumes(p, vs[..k]), vs[k]));
    }
  }

  lemma OccupiedAppend(ss: seq<Spare>, b: Binding)
    ensures Occupied(ss + if b.Reused? then [b.spare] else []) == Occupied(ss) + if b.Reused? then b.spare.size else 0
  {
    if b.Reused? {
      assert (ss + [b.spare])[..|ss|] == ss;
    } else {
      assert ss + [] == ss;
    }
  }

  ghost predicate DistinctSpares(ss: seq<Spare>) {
    forall i, j | 0 <= i < j < |ss| :: ss[i] != ss[j]
  }

  /** No spare is bound twice, and a bound spare is spare no more. */
  lemma TakenOnce(p: Pool, vs: seq<Volume>)
    requires vs != [] ==> p.storage != []
    requires DistinctSpares(p.spares)
    ensures DistinctSpares(Taken(Bindings(p, vs)))
    ensures forall s | s in Taken(Bindings(p, vs)) :: s in p.spares && s !in PoolAfterVolumes(p, vs).spares
  {
    PlacementsConserve(p, vs);
    var taken, left := Taken(Bindings(p, vs)), PoolAfterVolumes(p, vs).spares;
    DistinctHasSingles(p.spares);
    forall s | s in taken
      ensures multiset(taken)[s] == 1 && multiset(left)[s] == 0 && s in p.spares
    {
      assert multiset(p.spares)[s] == multiset(left)[s] + multiset(taken)[s];
      assert s in multiset(taken) && s in multiset(p.spares);
    }
    forall i, j | 0 <= i < j < |taken|
      ensures taken[i] != taken[j]
    {
      assert taken[i] in taken;
      TwiceInMultiset(taken, i, j);
    }
    forall s | s in taken
      ensures s !in left
    {
      assert s in left <==> s in multiset(left);
    }
  }

  lemma TwiceInMultiset(ss: seq<Spare>, i: nat, j: nat)
    requires i < j < |ss|
    ensures ss[i] == ss[j] ==> multiset(ss)[ss[i]] >= 2
  {
    assert ss == ss[..i] + [ss[i]] + ss[i + 1..j] + [ss[j]] + ss[j + 1..];
  }

  lemma {:induction false} DistinctHasSingles(ss: seq<Spare>)
    requires DistinctSpares(ss)
    ensures forall s | s in ss :: multiset(ss)[s] == 1
  {
    if ss != [] {
      var k := |ss| - 1;
      DistinctHasSingles(ss[..k]);
      assert ss == ss[..k] + [ss[k]];
      assert ss[k] !in ss[..k];
      assert ss[k] !in multiset(ss[..k]);
    }
  }
}
