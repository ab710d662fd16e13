/**
 The classless static route option, as the DHCP configuration writes it, against the
 format of RFC 3442, section "Classless Route Option Format".
 */
module Rfc3442 {
  import opened Common

  type Octet = x | 0 <= x < 256

  type Prefix = x | 0 <= x <= 32

  datatype Address = Address(a: Octet, b: Octet, c: Octet, d: Octet) {
    function Octets(): (r: seq<Octet>)
      ensures |r| == 4
    {
      [a, b, c, d]
    }
  }

  /** A route: destination address and prefix length, and the gateway. */
  datatype Route = Route(to: Address, prefix: Prefix, via: Address)

  /** One field of the written list; a destination without octets leaves a blank one. */
  datatype Item = Number(value: Octet) | Blank

  /** How many octets of a destination are significant: the least number that hold the prefix. */
  function Significant(prefix: Prefix): (n: nat)
    ensures n <= 4
    ensures prefix <= 8 * n && (n > 0 ==> 8 * (n - 1) < prefix)
  {
    (prefix + 7) / 8
  }

  /** Nothing after the significant octets; so are all routes without host bits. */
  predicate Masked(r: Route)
  {
    forall i | Significant(r.prefix) <= i < 4 :: r.to.Octets()[i] == 0
  }

  /** `to == 0.0.0.0/0`; networks are equal when they cover the same addresses. */
  predicate IsDefault(r: Route) {
    r.prefix == 0
  }

  // ---- What is written ----

  /** The octets without the zeros at the end. */
  function Stripped(octets: seq<Octet>): (r: seq<Octet>)
    ensures r <= octets
    ensures r != [] ==> r[|r| - 1] != 0
    ensures forall i | |r| <= i < |octets| :: octets[i] == 0
  {
    if octets == [] || octets[|octets| - 1] != 0 then octets else Stripped(octets[..|octets| - 1])
  }

  function Numbers(octets: seq<Octet>): (r: seq<Item>)
    ensures |r| == |octets| && forall i | 0 <= i < |octets| :: r[i] == Number(octets[i])
  {
    seq(|octets|, i requires 0 <= i < |octets| => Number(octets[i]))
  }

  function Written(r: Route): seq<Item>
  {
    if IsDefault(r) then [Number(0)] + Numbers(r.via.Octets())
    else
      var mask := Stripped(r.to.Octets());
      [Number(r.prefix)] + (if mask == [] then [Blank] else Numbers(mask)) + Numbers(r.via.Octets())
  }

  function AllWritten(routes: seq<Route>): seq<Item>
  {
    if routes == [] then [] else AllWritten(routes[..|routes| - 1]) + Written(routes[|routes| - 1])
  }

  function NonDefault(routes: seq<Route>): (r: seq<Route>)
    ensures forall x | x in r :: x in routes && !IsDefault(x)
    ensures forall x | x in routes && !IsDefault(x) :: x in r
  {
    if routes == [] then []
    else
      var last := routes[|routes| - 1];
      NonDefault(routes[..|routes| - 1]) + if IsDefault(last) then [] else [last]
  }

  function FirstDefault(routes: seq<Route>): (r: seq<Route>)
    ensures forall x | x in r :: x in routes && IsDefault(x)
    ensures |r| <= 1 && (r == [] <==> forall x | x in routes :: !IsDefault(x))
  {
    if routes == [] then [] else if IsDefault(routes[0]) then [routes[0]] else FirstDefault(routes[1..])
  }

  /** The routes the option is to carry, in order. */
  function Carried(routes: seq<Route>): (r: seq<Route>)
    ensures forall x | x in r :: x in routes
  {
    NonDefault(routes) + FirstDefault(routes)
  }

  /** `picked` are the routes with a prefix, found at the places `at`, first to last. */
  ghost predicate PicksNonDefault(routes: seq<Route>, at: seq<nat>, picked: seq<Route>) {
    && |picked| == |at|
    && (forall k | 0 <= k < |at| :: at[k] < |routes| && routes[at[k]] == picked[k] && picked[k].prefix != 0)
    && (forall k, l | 0 <= k < l < |at| :: at[k] < at[l])
    && (forall i: nat | i < |routes| && routes[i].prefix != 0 :: i in at)
  }

  lemma PicksOneMore(routes: seq<Route>, at: seq<nat>, picked: seq<Route>)
    requires routes != [] && PicksNonDefault(routes[..|routes| - 1], at, picked)
    ensures var n, last := |routes| - 1, routes[|routes| - 1];
            if last.prefix == 0 then PicksNonDefault(routes, at, picked) else PicksNonDefault(routes, at + [n], picked + [last])
  {
    var n := |routes| - 1;
    forall i: nat | i < |routes| && routes[i].prefix != 0
      ensures i in at + [n]
    {
      assert i < n ==> routes[..n][i] == routes[i] && i in at;
    }
    forall i: nat | i < n && routes[i].prefix != 0
      ensures i in at
    {
      assert routes[..n][i] == routes[i];
    }
  }

  /** The carried routes: those with a prefix in their order, and then the first default one. */
  lemma {:induction false} CarriedAre(routes: seq<Route>) returns (at: seq<nat>)
    ensures |at| <= |Carried(routes)|
    ensures && PicksNonDefault(routes, at, Carried(routes)[..|at|])
            && Carried(routes)[|at|..] == FirstDefault(routes)
            && forall i: nat | i < |routes| && routes[i].prefix == 0 && (forall j | 0 <= j < i :: routes[j].prefix != 0) ::
                 FirstDefault(routes) == [routes[i]]
  {
    at := NonDefaultPlaces(routes);
    assert Carried(routes)[..|at|] == NonDefault(routes);
    forall i: nat | i < |routes| && routes[i].prefix == 0 && (forall j | 0 <= j < i :: routes[j].prefix != 0)
      ensures FirstDefault(routes) == [routes[i]]
    {
      FirstDefaultAt(routes, i);
    }
  }

  lemma {:induction false} NonDefaultPlaces(routes: seq<Route>) returns (at: seq<nat>)
    ensures PicksNonDefault(routes, at, NonDefault(routes))
  {
    at := [];
    if routes != [] {
      var n := |routes| - 1;
      at := NonDefaultPlaces(routes[..n]);
      PicksOneMore(routes, at, NonDefault(routes[..n]));
      if routes[n].prefix != 0 {
        at := at + [n];
      } else {
        assert NonDefault(routes) == NonDefault(routes[..n]);
      }
    }
  }

  lemma {:induction false} FirstDefaultAt(routes: seq<Route>, i: nat)
    requires i < |routes| && routes[i].prefix == 0 && forall j | 0 <= j < i :: routes[j].prefix != 0
    ensures FirstDefault(routes) == [routes[i]]
  {
    if i > 0 {
      FirstDefaultAt(routes[1..], i - 1);
    }
  }

  // ---- The format ----

  /** One route in the format: width, significant octets, router. */
  function Formatted(r: Route): seq<Octet>
  {
    [r.prefix] + r.to.Octets()[..Significant(r.prefix)] + r.via.Octets()
  }

  function AllFormatted(routes: seq<Route>): seq<Octet>
  {
    if routes == [] then [] else Formatted(routes[0]) + AllFormatted(routes[1..])
  }

  /** An address from its first octets. */
  function Padded(octets: seq<Octet>): (r: Address)
    requires |octets| <= 4
    ensures octets <= r.Octets() && forall i | |octets| <= i < 4 :: r.Octets()[i] == 0
  {
    var all := octets + [0, 0, 0, 0];
    Address(all[0], all[1], all[2], all[3])
  }

  /** What a client reads. */
  function Decoded(octets: seq<Octet>): Option<seq<Route>>
    decreases |octets|
  {
    if octets == [] then Some([])
    else
      if octets[0] > 32 then None
      else
        var n := Significant(octets[0]);
        if |octets| < n + 5 then None
        else
          var rest := Decoded(octets[n + 5..]);
          if rest.None? then None
          else Some([Route(Padded(octets[1..n + 1]), octets[0], Padded(octets[n + 1..n + 5]))] + rest.value)
  }

  /** The written list is a list of octets when no field is blank. */
  function Octets(items: seq<Item>): Option<seq<Octet>> {
    if items == [] then Some([])
    else
      var rest := Octets(items[..|items| - 1]);
      var last := items[|items| - 1];
      if rest.None? || last.Blank? then None else Some(rest.value + [last.value])
  }

  lemma DecodedAfter(r: Route, octets: seq<Octet>, routes: seq<Route>)
    requires Masked(r) && Decoded(octets) == Some(routes)
    ensures Decoded(Formatted(r) + octets) == Some([r] + routes)
  {
    FormattedParts(r, octets);
  }

  /** What a client makes of the written list. */
  function Read(items: seq<Item>): Option<seq<Route>> {
    var octets := Octets(items);
    if octets.None? then None else Decoded(octets.value)
  }

  // ---- The format can be read back, in one way ----

  lemma FormattedParts(r: Route, rest: seq<Octet>)
    requires Masked(r)
    ensures var n, all := Significant(r.prefix), Formatted(r) + rest;
            && |all| >= n + 5 && all[0] == r.prefix && all[n + 5..] == rest
            && Padded(all[1..n + 1]) == r.to && Padded(all[n + 1..n + 5]) == r.via
  {
    var n, all := Significant(r.prefix), Formatted(r) + rest;
    assert all[1..n + 1] == r.to.Octets()[..n];
    assert all[n + 1..n + 5] == r.via.Octets();
    var to := Padded(all[1..n + 1]);
    assert forall i | 0 <= i < 4 :: to.Octets()[i] == r.to.Octets()[i];
    SameAddress(to, r.to);
    SameAddress(Padded(all[n + 1..n + 5]), r.via);
  }

  lemma SameAddress(a: Address, b: Address)
    requires forall i | 0 <= i < 4 :: a.Octets()[i] == b.Octets()[i]
    ensures a == b
  {
    assert a.Octets()[0] == b.Octets()[0] && a.Octets()[1] == b.Octets()[1];
    assert a.Octets()[2] == b.Octets()[2] && a.Octets()[3] == b.Octets()[3];
  }

  lemma {:induction false} DecodeFormatted(routes: seq<Route>)
    requires forall r | r in routes :: Masked(r)
    ensures Decoded(AllFormatted(routes)) == Some(routes)
  {
    if routes != [] {
      DecodeFormatted(routes[1..]);
      assert routes[0] in routes;
      DecodedAfter(routes[0], AllFormatted(routes[1..]), routes[1..]);
      assert [routes[0]] + routes[1..] == routes;
    }
  }

  lemma OneDecoded(octets: seq<Octet>, n: nat)
    requires octets != [] && octets[0] <= 32 && n == Significant(octets[0]) && |octets| >= n + 5
    ensures var r := Route(Padded(octets[1..n + 1]), octets[0], Padded(octets[n + 1..n + 5]));
            Masked(r) && Formatted(r) == octets[..n + 5]
  {
    var r := Route(Padded(octets[1..n + 1]), octets[0], Padded(octets[n + 1..n + 5]));
    assert r.to.Octets()[..n] == octets[1..n + 1];
    assert r.via.Octets() == octets[n + 1..n + 5];
    assert [octets[0]] + octets[1..n + 1] + octets[n + 1..n + 5] == octets[..n + 5];
  }

  /** Reading takes one route off the front. */
  lemma DecodedFirst(octets: seq<Octet>)
    requires octets != [] && Decoded(octets).Some?
    ensures octets[0] <= 32 && |octets| >= Significant(octets[0]) + 5
    ensures var n := Significant(octets[0]);
            && Decoded(octets[n + 5..]).Some?
            && Decoded(octets).value ==
               [Route(Padded(octets[1..n + 1]), octets[0], Padded(octets[n + 1..n + 5]))] + Decoded(octets[n + 5..]).value
  {
  }

  lemma FirstAndRest(octets: seq<Octet>, n: nat, rest: seq<Route>)
    requires octets != [] && octets[0] <= 32 && n == Significant(octets[0]) && |octets| >= n + 5
    requires (forall r | r in rest :: Masked(r)) && AllFormatted(rest) == octets[n + 5..]
    ensures var all := [Route(Padded(octets[1..n + 1]), octets[0], Padded(octets[n + 1..n + 5]))] + rest;
            (forall r | r in all :: Masked(r)) && AllFormatted(all) == octets
  {
    OneDecoded(octets, n);
    var all := [Route(Padded(octets[1..n + 1]), octets[0], Padded(octets[n + 1..n + 5]))] + rest;
    assert all[1..] == rest;
    assert octets[..n + 5] + octets[n + 5..] == octets;
  }

  lemma {:induction false} DecodedIsFormatted(octets: seq<Octet>)
    requires Decoded(octets).Some?
    ensures forall r | r in Decoded(octets).value :: Masked(r)
    ensures AllFormatted(Decoded(octets).value) == octets
    decreases |octets|
  {
    if octets != [] {
      DecodedFirst(octets);
      var n := Significant(octets[0]);
      DecodedIsFormatted(octets[n + 5..]);
      FirstAndRest(octets, n, Decoded(octets[n + 5..]).value);
    }
  }

  // ---- When the writer keeps to the format ----

  lemma {:induction false} OctetsAppend(a: seq<Item>, b: seq<Item>)
    ensures Octets(a + b) == if Octets(a).None? || Octets(b).None? then None else Some(Octets(a).value + Octets(b).value)
  {
    if b == [] {
      assert a + b == a;
      assert Octets(a).Some? ==> Octets(a).value + [] == Octets(a).value;
    } else {
      OctetsAppend(a, b[..|b| - 1]);
      assert (a + b)[..|a + b| - 1] == a + b[..|b| - 1];
      if Octets(a).Some? && Octets(b).Some? {
        assert Octets(a).value + Octets(b).value == Octets(a).value + Octets(b[..|b| - 1]).value + [b[|b| - 1].value];
      }
    }
  }

  lemma {:induction false} OctetsOfNumbers(octets: seq<Octet>)
    ensures Octets(Numbers(octets)) == Some(octets)
  {
    if octets != [] {
      var k := |octets| - 1;
      OctetsOfNumbers(octets[..k]);
      assert Numbers(octets)[..k] == Numbers(octets[..k]);
      assert octets == octets[..k] + [octets[k]];
    }
  }

  /** The last significant octet of the destination is not zero. */
  predicate Exact(r: Route)
  {
    r.prefix > 0 ==> r.to.Octets()[Significant(r.prefix) - 1] != 0
  }

  lemma StrippedLength(r: Route)
    requires Masked(r)
    ensures |Stripped(r.to.Octets())| <= Significant(r.prefix)
    ensures Exact(r) <==> |Stripped(r.to.Octets())| == Significant(r.prefix)
    ensures Exact(r) ==> Stripped(r.to.Octets()) == r.to.Octets()[..Significant(r.prefix)]
  {
  }

  /** A written route is never longer than the format, and as long only where it is the format. */
  lemma WrittenRoute(r: Route)
    requires Masked(r)
    ensures Exact(r) ==> Octets(Written(r)) == Some(Formatted(r))
    ensures !Exact(r) && Octets(Written(r)).Some? ==> |Octets(Written(r)).value| < |Formatted(r)|
  {
    StrippedLength(r);
    OctetsOfNumbers(r.via.Octets());
    var mask := Stripped(r.to.Octets());
    OctetsOfNumbers(mask);
    var width: seq<Item> := [Number(r.prefix)];
    OctetsOfNumbers([r.prefix]);
    assert width == Numbers([r.prefix]);
    if IsDefault(r) {
      OctetsAppend(width, Numbers(r.via.Octets()));
      assert Formatted(r) == [r.prefix] + r.via.Octets();
    } else {
      var middle := if mask == [] then [Blank] else Numbers(mask);
      OctetsAppend(width, middle);
      OctetsAppend(width + middle, Numbers(r.via.Octets()));
    }
  }

  lemma {:induction false} FormattedAppend(routes: seq<Route>, r: Route)
    ensures AllFormatted(routes + [r]) == AllFormatted(routes) + Formatted(r)
  {
    if routes != [] {
      FormattedAppend(routes[1..], r);
      assert (routes + [r])[1..] == routes[1..] + [r];
    } else {
      assert routes + [r] == [r] && [r][1..] == [];
    }
  }

  lemma {:induction false} WrittenRoutes(routes: seq<Route>)
    requires forall r | r in routes :: Masked(r)
    ensures (forall r | r in routes :: Exact(r)) ==> Octets(AllWritten(routes)) == Some(AllFormatted(routes))
    ensures Octets(AllWritten(routes)).Some? ==> |Octets(AllWritten(routes)).value| <= |AllFormatted(routes)|
    ensures Octets(AllWritten(routes)).Some? && |Octets(AllWritten(routes)).value| == |AllFormatted(routes)| ==>
              forall r | r in routes :: Exact(r)
  {
    if routes != [] {
      var k := |routes| - 1;
      var most, last := routes[..k], routes[k];
      assert routes == most + [last] && last in routes;
      WrittenRoutes(most);
      WrittenRoute(last);
      OctetsAppend(AllWritten(most), Written(last));
      FormattedAppend(most, last);
    }
  }

  /** A client reads exactly the non-default routes in order and then the first default one,
      if and only if each of them has a last significant octet other than zero. */
  lemma ReadsBackIff(routes: seq<Route>)
    requires forall r | r in routes :: Masked(r)
    ensures Read(AllWritten(Carried(routes))) == Some(Carried(routes)) <==> forall r | r in Carried(routes) :: Exact(r)
  {
    var carried := Carried(routes);
    WrittenRoutes(carried);
    DecodeFormatted(carried);
    if Read(AllWritten(carried)) == Some(carried) {
      DecodedIsFormatted(Octets(AllWritten(carried)).value);
    }
  }

  /** 10.0.0.0/16 is written with one octet where the format has two: the gateway's first
      octet is read as part of the destination, and the list ends too early. */
  lemma TrailingZeroIsMisread()
    ensures var r := Route(Address(10, 0, 0, 0), 16, Address(192, 168, 0, 1));
            Masked(r) && Carried([r]) == [r] && Read(AllWritten([r])) != Some([r])
  {
    var r := Route(Address(10, 0, 0, 0), 16, Address(192, 168, 0, 1));
    assert Significant(16) == 2 && !Exact(r);
    assert [r][..0] == [] && [r][1..] == [];
    assert NonDefault([r]) == [r] && FirstDefault([r]) == [];
    assert Carried([r]) == [r];
    assert r in Carried([r]);
    ReadsBackIff([r]);
  }

  // ---- The writer ----

  method ToRfc3442(r: Route) returns (items: seq<Item>)
    ensures items == Written(r)
  {
    if IsDefault(r) {
      return [Number(0)] + Numbers(r.via.Octets());
    }
    var mask: seq<Octet> := [];
    var i := 4;
    while i > 0
      invariant 0 <= i <= 4
      invariant mask == if i <= |Stripped(r.to.Octets())| then Stripped(r.to.Octets())[i..] else []
    {
      i := i - 1;
      var d := r.to.Octets()[i];
      if mask == [] && d == 0 {
        continue;
      }
      mask := [d] + mask;
    }
    assert Stripped(r.to.Octets())[0..] == Stripped(r.to.Octets());
    items := [Number(r.prefix)] + (if mask == [] then [Blank] else Numbers(mask)) + Numbers(r.via.Octets());
  }

  method StaticRoutes(routes: seq<Route>) returns (items: seq<Item>)
    ensures items == AllWritten(Carried(routes))
  {
    items := [];
    var i := 0;
    while i < |routes|
      invariant 0 <= i <= |routes|
      invariant items == AllWritten(NonDefault(routes[..i]))
    {
      NonDefaultStep(routes, i);
      if !IsDefault(routes[i]) {
        var written := ToRfc3442(routes[i]);
        WrittenAppend(NonDefault(routes[..i]), routes[i]);
        items := items + written;
      }
      i := i + 1;
    }
    assert routes[..i] == routes;
    var chosen := FindDefault(routes);
    if chosen < |routes| {
      var written := ToRfc3442(routes[chosen]);
      WrittenAppend(NonDefault(routes), routes[chosen]);
      items := items + written;
    } else {
      assert Carried(routes) == NonDefault(routes);
    }
  }

  method FindDefault(routes: seq<Route>) returns (i: nat)
    ensures i <= |routes|
    ensures FirstDefault(routes) == if i < |routes| then [routes[i]] else []
  {
    i := 0;
    while i < |routes| && !IsDefault(routes[i])
      invariant 0 <= i <= |routes|
      invariant FirstDefault(routes) == FirstDefault(routes[i..])
    {
      assert routes[i..][1..] == routes[i + 1..];
      i := i + 1;
    }
  }

  lemma NonDefaultStep(routes: seq<Route>, i: nat)
    requires i < |routes|
    ensures NonDefault(routes[..i + 1]) == if IsDefault(routes[i]) then NonDefault(routes[..i]) else NonDefault(routes[..i]) + [routes[i]]
  {
    assert routes[..i + 1][..i] == routes[..i];
  }

  lemma WrittenAppend(routes: seq<Route>, r: Route)
    ensures AllWritten(routes + [r]) == AllWritten(routes) + Written(r)
  {
    assert (routes + [r])[..|routes|] == routes;
  }
}
