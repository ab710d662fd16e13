/**
 How the scheduler picks one candidate: a chain of filters, a sum of weights, and the
 first candidate of maximal weight.  Filters and weighters are parameters.
 */
module Selection {
  import opened Common

  datatype Policy<!N, !C> = Policy(filters: seq<(N, seq<C>) -> seq<C>>, weighters: seq<seq<C> -> seq<real>>)

  /** What the source's base classes promise: a filter drops candidates, a weighter gives
      one weight to each. */
  ghost predicate Lawful<N(!new), C(!new)>(p: Policy<N, C>) {
    && (forall f, n: N, cs: seq<C>, c: C :: f in p.filters && c in f(n, cs) ==> c in cs)
    && (forall w, cs: seq<C> :: w in p.weighters ==> |w(cs)| == |cs|)
  }

  function Filtered<N, C>(filters: seq<(N, seq<C>) -> seq<C>>, n: N, cs: seq<C>): seq<C>
    decreases |filters|
  {
    if filters == [] then cs else Filtered(filters[1..], n, filters[0](n, cs))
  }

  /** The candidates that pass the whole chain. */
  function Passed<N, C>(p: Policy<N, C>, n: N, cs: seq<C>): seq<C> {
    Filtered(p.filters, n, cs)
  }

  /** The weight of one candidate: its share of every weighter. */
  function Weight<C>(weighters: seq<seq<C> -> seq<real>>, cs: seq<C>, i: nat): real {
    if weighters == [] then 0.0
    else
      var ws := weighters[|weighters| - 1](cs);
      Weight(weighters[..|weighters| - 1], cs, i) + if i < |ws| then ws[i] else 0.0
  }

  /** A weight is the sum of what each weighter gives to the candidate. */
  lemma {:induction false} WeightIsSum<C(!new)>(weighters: seq<seq<C> -> seq<real>>, cs: seq<C>, i: nat, sums: seq<real>)
    requires i < |cs| && forall w | w in weighters :: |w(cs)| == |cs|
    requires |sums| == |weighters| + 1 && sums[0] == 0.0
    requires forall k | 0 <= k < |weighters| :: |weighters[k](cs)| == |cs| && sums[k + 1] == sums[k] + weighters[k](cs)[i]
    ensures Weight(weighters, cs, i) == sums[|weighters|]
    decreases |weighters|
  {
    if weighters != [] {
      var n := |weighters| - 1;
      assert forall k | 0 <= k < n :: weighters[..n][k] == weighters[k] && sums[..n + 1][k] == sums[k];
      WeightIsSum(weighters[..n], cs, i, sums[..n + 1]);
      assert weighters[n] in weighters;
    }
  }

  /** `c` is a candidate of maximal weight, and the first of these. */
  ghost predicate IsBest<C>(weighters: seq<seq<C> -> seq<real>>, cs: seq<C>, i: nat) {
    && i < |cs|
    && (forall j | 0 <= j < |cs| :: Weight(weighters, cs, j) <= Weight(weighters, cs, i))
    && (forall j | 0 <= j < i :: Weight(weighters, cs, j) < Weight(weighters, cs, i))
  }

  function Best<C>(weighters: seq<seq<C> -> seq<real>>, cs: seq<C>, n: nat): (i: nat)
    requires 0 < n <= |cs|
    ensures i < n
    ensures forall j | 0 <= j < n :: Weight(weighters, cs, j) <= Weight(weighters, cs, i)
    ensures forall j | 0 <= j < i :: Weight(weighters, cs, j) < Weight(weighters, cs, i)
  {
    if n == 1 then 0
    else
      var i := Best(weighters, cs, n - 1);
      if Weight(weighters, cs, n - 1) > Weight(weighters, cs, i) then n - 1 else i
  }

  /** The scheduler's choice, if any candidate passes. */
  function Chosen<N, C>(p: Policy<N, C>, n: N, cs: seq<C>): Option<C> {
    var passed := Passed(p, n, cs);
    if passed == [] then None else Some(passed[Best(p.weighters, passed, |passed|)])
  }

  lemma {:induction false} FilteredIsSubset<N(!new), C(!new)>(filters: seq<(N, seq<C>) -> seq<C>>, n: N, cs: seq<C>)
    requires forall f, m: N, ds: seq<C>, c: C :: f in filters && c in f(m, ds) ==> c in ds
    ensures forall c | c in Filtered(filters, n, cs) :: c in cs
    decreases |filters|
  {
    if filters != [] {
      FilteredIsSubset(filters[1..], n, filters[0](n, cs));
    }
  }

  /** One filter of the chain that only passes what satisfies `fits` is enough. */
  lemma {:induction false} FilteredFits<N(!new), C(!new)>(filters: seq<(N, seq<C>) -> seq<C>>, fits: (N, C) -> bool, n: N, cs: seq<C>)
    requires forall f, m: N, ds: seq<C>, c: C :: f in filters && c in f(m, ds) ==> c in ds
    requires exists f :: f in filters && forall m: N, ds: seq<C>, c: C :: c in f(m, ds) ==> fits(m, c)
    ensures forall c | c in Filtered(filters, n, cs) :: fits(n, c)
    decreases |filters|
  {
    var f :| f in filters && forall m: N, ds: seq<C>, c: C :: c in f(m, ds) ==> fits(m, c);
    if filters[0] == f {
      FilteredIsSubset(filters[1..], n, filters[0](n, cs));
    } else {
      assert f in filters[1..];
      FilteredFits(filters[1..], fits, n, filters[0](n, cs));
    }
  }

  /** The choice passes the chain and has the first maximal weight; there is none exactly
      when nothing passes. */
  lemma ChosenIsBest<N(!new), C(!new)>(p: Policy<N, C>, n: N, cs: seq<C>)
    requires Lawful(p)
    ensures Chosen(p, n, cs).None? <==> Passed(p, n, cs) == []
    ensures Chosen(p, n, cs).Some? ==>
              && Chosen(p, n, cs).value in cs
              && exists i: nat :: IsBest(p.weighters, Passed(p, n, cs), i) && Passed(p, n, cs)[i] == Chosen(p, n, cs).value
  {
    var passed := Passed(p, n, cs);
    FilteredIsSubset(p.filters, n, cs);
    if passed != [] {
      assert IsBest(p.weighters, passed, Best(p.weighters, passed, |passed|));
    }
  }

  /** `[w0 + w1 for w0, w1 in zip(xs, ys)]` */
  function Summed(xs: seq<real>, ys: seq<real>): (r: seq<real>)
    requires |xs| == |ys|
    ensures |r| == |xs| && forall i | 0 <= i < |xs| :: r[i] == xs[i] + ys[i]
  {
    seq(|xs|, i requires 0 <= i < |xs| => xs[i] + ys[i])
  }

  /** The loops of the scheduler: filter, accumulate the weights, take the first maximum. */
  method Choose<N(!new), C(!new)>(p: Policy<N, C>, n: N, candidates: seq<C>) returns (r: Option<C>)
    requires Lawful(p)
    ensures r == Chosen(p, n, candidates)
  {
    var cs := candidates;
    for k := 0 to |p.filters|
      invariant Filtered(p.filters[k..], n, cs) == Passed(p, n, candidates)
    {
      assert p.filters[k..][1..] == p.filters[k + 1..];
      cs := p.filters[k](n, cs);
    }
    if |cs| == 0 {
      return None;
    }
    var accumulated := seq(|cs|, _ => 0.0);
    for k := 0 to |p.weighters|
      invariant |accumulated| == |cs|
      invariant forall i | 0 <= i < |cs| :: accumulated[i] == Weight(p.weighters[..k], cs, i)
    {
      assert p.weighters[..k + 1][..k] == p.weighters[..k];
      accumulated := Summed(accumulated, p.weighters[k](cs));
    }
    assert p.weighters[..|p.weighters|] == p.weighters;
    var index := 0;
    for i := 1 to |cs|
      invariant 0 <= index < i
      invariant index == Best(p.weighters, cs, i)
    {
      if accumulated[i] > accumulated[index] {
        index := i;
      }
    }
    return Some(cs[index]);
  }
}
