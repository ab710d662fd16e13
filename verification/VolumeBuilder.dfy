/**
 Admitting volumes to a pool: the builder's hooks check and take storage capacity. All
 volumes are taken to refer to one pool object.
 */
module VolumeBuilder {
  import opened Common
  import opened Keyed
  import opened PoolPlacement

  type Size = x: int | x >= 1 witness 1

  /** The pool's storage, and the sizes of the volumes admitted to it. */
  datatype State = State(storage: seq<Storage>, volumes: map<Uuid, Size>)

  /** A volume to create, or another size for an admitted one. */
  datatype Request = Create(uuid: Uuid, size: Size) | Resize(uuid: Uuid, size: Size)

  predicate Possible(s: State, r: Request) {
    r.Resize? ==> r.uuid in s.volumes
  }

  /** What the request is charged: a volume to create its full size, whatever is admitted. */
  function Need(s: State, r: Request): int
    requires Possible(s, r)
  {
    if r.Create? then r.size else r.size - s.volumes[r.uuid]
  }

  predicate Admitted(s: State, r: Request)
    requires Possible(s, r)
  {
    s.storage != [] && s.storage[0].Available() >= Need(s, r)
  }

  function Step(s: State, r: Request): State
    requires Possible(s, r)
  {
    if Admitted(s, r) then
      State(s.storage[0 := s.storage[0].Allocate(Need(s, r))], s.volumes[r.uuid := r.size])
    else s
  }

  ghost predicate PossibleRun(s: State, requests: seq<Request>)
    decreases requests
  {
    requests != [] ==> Possible(s, requests[0]) && PossibleRun(Step(s, requests[0]), requests[1..])
  }

  function Run(s: State, requests: seq<Request>): State
    requires PossibleRun(s, requests)
    decreases requests
  {
    if requests == [] then s else Run(Step(s, requests[0]), requests[1..])
  }

  ghost function Total(volumes: map<Uuid, Size>): int {
    if volumes == map[] then 0
    else
      var u :| u in volumes;
      volumes[u] + Total(volumes - {u})
  }

  lemma {:induction false} TotalWithout(volumes: map<Uuid, Size>, u: Uuid)
    requires u in volumes
    ensures Total(volumes) == volumes[u] + Total(volumes - {u})
    decreases |volumes|
  {
    var v :| v in volumes && Total(volumes) == volumes[v] + Total(volumes - {v});
    if v != u {
      TotalWithout(volumes - {v}, u);
      TotalWithout(volumes - {u}, v);
      assert volumes - {v} - {u} == volumes - {u} - {v};
    }
  }

  lemma TotalPut(volumes: map<Uuid, Size>, u: Uuid, size: Size)
    ensures Total(volumes[u := size]) == Total(volumes) + size - if u in volumes then volumes[u] else 0
  {
    TotalWithout(volumes[u := size], u);
    assert volumes[u := size] - {u} == volumes - {u};
    if u in volumes {
      TotalWithout(volumes, u);
    } else {
      RemoveAbsent(volumes, u);
    }
  }

  /** What is provisioned beyond the admitted volumes. */
  ghost function Excess(s: State): int
    requires s.storage != []
  {
    s.storage[0].provisioned - Total(s.volumes)
  }

  /** The volume to create is admitted already, and is admitted again. */
  predicate CreatedAgain(s: State, r: Request)
    requires Possible(s, r)
  {
    r.Create? && r.uuid in s.volumes && Admitted(s, r)
  }

  /** The pool has given out no more than its usable size allows. */
  ghost predicate WithinCapacity(storage: Storage) {
    storage.provisioned <= (storage.usable as real * storage.ratio).Floor
  }

  lemma WithinIff(storage: Storage)
    ensures WithinCapacity(storage) <==> storage.Available() >= 0
  {
  }

  lemma StepExcess(s: State, r: Request)
    requires s.storage != [] && Possible(s, r)
    ensures var t := Step(s, r);
            && |t.storage| == |s.storage| && t.storage[1..] == s.storage[1..]
            && Excess(t) == Excess(s) + (if CreatedAgain(s, r) then s.volumes[r.uuid] else 0)
            && t.storage[0].Capacity() == s.storage[0].Capacity()
            && t.storage[0].usable == s.storage[0].usable && t.storage[0].ratio == s.storage[0].ratio
            && (s.storage[0].Available() >= 0 ==> t.storage[0].Available() >= 0)
  {
    TotalPut(s.volumes, r.uuid, r.size);
  }

  ghost predicate NeverAgain(s: State, requests: seq<Request>)
    requires PossibleRun(s, requests)
    decreases requests
  {
    requests != [] ==> !CreatedAgain(s, requests[0]) && NeverAgain(Step(s, requests[0]), requests[1..])
  }

  /** Over any run the provisioned capacity is that of the admitted volumes if and only if no
      admitted volume was created again, and exceeds it otherwise; a pool that is not over
      its capacity never gets there. */
  lemma {:induction false} RunConservesIff(s: State, requests: seq<Request>)
    requires s.storage != [] && PossibleRun(s, requests)
    ensures var t := Run(s, requests);
            && |t.storage| == |s.storage| && t.storage[1..] == s.storage[1..]
            && Excess(t) >= Excess(s)
            && (Excess(t) == Excess(s) <==> NeverAgain(s, requests))
            && t.storage[0].usable == s.storage[0].usable && t.storage[0].ratio == s.storage[0].ratio
            && (WithinCapacity(s.storage[0]) ==> WithinCapacity(t.storage[0]))
    decreases requests
  {
    if requests != [] {
      StepExcess(s, requests[0]);
      WithinIff(s.storage[0]);
      WithinIff(Step(s, requests[0]).storage[0]);
      RunConservesIff(Step(s, requests[0]), requests[1..]);
    }
  }

  /** What is done with a refused volume. */
  datatype Answer = Accepted | VolumeRemoved | VolumeAndMachineRemoved | VolumeInError

  class VolumeHooks {
    var storage: seq<Storage>

    constructor (storage: seq<Storage>)
      ensures this.storage == storage
    {
      this.storage := storage;
    }

    predicate HasEnoughSpace(need: int)
      reads this
    {
      storage != [] && storage[0].Available() >= need
    }

    /** A refused new volume is removed to be scheduled again, with its machine if it is
        the root volume. */
    method CanCreateVolume(size: Size, index: nat, attached: bool) returns (answer: Answer)
      modifies this
      ensures forall volumes: map<Uuid, Size>, u ::
                var s := State(old(storage), volumes);
                && (answer == Accepted <==> Admitted(s, Create(u, size)))
                && storage == Step(s, Create(u, size)).storage
      ensures answer == Accepted <==>
              old(storage) != [] && WithinCapacity(old(storage)[0].(provisioned := old(storage)[0].provisioned + size))
      ensures answer == VolumeAndMachineRemoved <==> answer != Accepted && index == 0 && attached
      ensures answer != VolumeInError
    {
      if !HasEnoughSpace(size) {
        return if index == 0 && attached then VolumeAndMachineRemoved else VolumeRemoved;
      }
      storage := storage[0 := storage[0].Allocate(size)];
      answer := Accepted;
    }

    /** A refused new size leaves the volume in error. */
    method CanUpdateVolume(target: Size, actual: Size) returns (answer: Answer)
      modifies this
      ensures forall volumes: map<Uuid, Size>, u | u in volumes && volumes[u] == actual ::
                var s := State(old(storage), volumes);
                && (answer == Accepted <==> Admitted(s, Resize(u, target)))
                && storage == Step(s, Resize(u, target)).storage
      ensures answer == Accepted <==>
              old(storage) != [] && WithinCapacity(old(storage)[0].(provisioned := old(storage)[0].provisioned + target - actual))
      ensures answer == Accepted || answer == VolumeInError
    {
      if !HasEnoughSpace(target - actual) {
        return VolumeInError;
      }
      storage := storage[0 := storage[0].Allocate(target - actual)];
      answer := Accepted;
    }
  }
}
