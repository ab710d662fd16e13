/**
 Resource links: dot-separated parts, where parts naming a resource start with a dollar
 sign and a colon starts a parameter.
 */
module Links {
  import opened Common

  type Link = string

  /** `s.split(c)`. */
  function Split(s: string, c: char): (parts: seq<string>)
    ensures parts != []
    ensures forall p | p in parts :: c !in p
  {
    if s == "" then [""]
    else
      var rest := Split(s[1..], c);
      if s[0] == c then [""] + rest else [[s[0]] + rest[0]] + rest[1..]
  }

  /** `c.join(parts)`. */
  function Join(parts: seq<string>, c: char): string {
    if parts == [] then ""
    else if |parts| == 1 then parts[0]
    else parts[0] + [c] + Join(parts[1..], c)
  }

  lemma {:induction false} JoinSplit(s: string, c: char)
    ensures Join(Split(s, c), c) == s
  {
    if s != "" {
      JoinSplit(s[1..], c);
      var rest := Split(s[1..], c);
      if s[0] == c {
        assert ([""] + rest)[1..] == rest;
      } else {
        assert ([[s[0]] + rest[0]] + rest[1..])[1..] == rest[1..];
      }
      assert s == [s[0]] + s[1..];
    }
  }

  lemma {:induction false} SplitPart(p: string, tail: string, c: char)
    requires c !in p
    ensures Split(p + tail, c) == [p + Split(tail, c)[0]] + Split(tail, c)[1..]
  {
    var rest := Split(tail, c);
    if p == "" {
      assert p + tail == tail && p + rest[0] == rest[0];
      assert [rest[0]] + rest[1..] == rest;
    } else {
      SplitPart(p[1..], tail, c);
      assert (p + tail)[1..] == p[1..] + tail;
      assert p[0] in p;
      assert p + rest[0] == [p[0]] + (p[1..] + rest[0]);
    }
  }

  /** Joining a prefix of the parts gives a prefix of the whole. */
  lemma {:induction false} JoinPrefix(parts: seq<string>, c: char, k: nat)
    requires k <= |parts|
    ensures Join(parts[..k], c) <= Join(parts, c)
  {
    if 0 < k < |parts| {
      JoinPrefix(parts[1..], c, k - 1);
      assert parts[..k][1..] == parts[1..][..k - 1];
    } else if k == |parts| {
      assert parts[..k] == parts;
    }
  }

  /** `clear_parameters`: the last part loses everything from its first colon on. */
  function ClearParameters(link: Link): Link {
    var parts := Split(link, '.');
    var k := |parts| - 1;
    Join(parts[..k] + [Split(parts[k], ':')[0]], '.')
  }

  lemma {:induction false} SplitNothing(s: string, c: char)
    requires c !in s
    ensures Split(s, c) == [s]
  {
    SplitPart(s, "", c);
    assert s + "" == s;
  }

  /** A link without a colon has no parameter to clear. */
  lemma NothingToClear(link: Link)
    requires ':' !in link
    ensures ClearParameters(link) == link
  {
    var parts := Split(link, '.');
    var k := |parts| - 1;
    JoinSplit(link, '.');
    JoinMembers(parts, '.', k);
    SplitNothing(parts[k], ':');
    assert parts[..k] + [parts[k]] == parts;
  }

  lemma {:induction false} JoinMembers(parts: seq<string>, c: char, k: nat)
    requires k < |parts|
    ensures forall x | x in parts[k] :: x in Join(parts, c)
  {
    if 0 < k {
      JoinMembers(parts[1..], c, k - 1);
      assert parts[1..][k - 1] == parts[k];
    }
  }

  predicate NamesResource(part: string) {
    part != "" && part[0] == '$'
  }

  /** The last part that names a resource. */
  function LastNamed(parts: seq<string>): (r: Option<string>)
    ensures r.Some? ==> r.value in parts && NamesResource(r.value)
    ensures r.None? ==> forall p | p in parts :: !NamesResource(p)
  {
    if parts == [] then None
    else if NamesResource(parts[|parts| - 1]) then Some(parts[|parts| - 1])
    else LastNamed(parts[..|parts| - 1])
  }

  /** `list.index`. */
  function FirstIndex(parts: seq<string>, p: string): (i: nat)
    requires p in parts
    ensures i < |parts| && parts[i] == p && p !in parts[..i]
  {
    if parts[0] == p then 0 else 1 + FirstIndex(parts[1..], p)
  }

  /** The first parts of a link, its parameter left out, are a prefix of it. */
  lemma FirstPartsArePrefix(full: Link, k: nat)
    requires k <= |Split(Split(full, ':')[0], '.')|
    ensures Join(Split(Split(full, ':')[0], '.')[..k], '.') <= full
    ensures ':' !in Join(Split(Split(full, ':')[0], '.')[..k], '.')
  {
    var heads := Split(full, ':');
    JoinSplit(full, ':');
    JoinSplit(heads[0], '.');
    JoinPrefix(heads, ':', 1);
    assert Join(heads[..1], ':') == heads[0];
    JoinPrefix(Split(heads[0], '.'), '.', k);
    var first := Join(Split(heads[0], '.')[..k], '.');
    assert heads[0] in heads && first == heads[0][..|first|];
  }

  /** `_extract_resource_link`: the parts up to the first occurrence of the last part
      that names a resource, the parameter left out. The rest is the discarded part. */
  function ExtractLink(full: Link): (r: Option<Link>)
    ensures r.Some? ==> r.value <= full && ':' !in r.value
  {
    var parts := Split(Split(full, ':')[0], '.');
    var last := LastNamed(parts);
    if last.None? then None
    else
      var k := FirstIndex(parts, last.value) + 1;
      FirstPartsArePrefix(full, k);
      Some(Join(parts[..k], '.'))
  }

  /** The parts of a link, its parameter left out: the text up to the first colon, at dots. */
  ghost predicate PartsOf(full: Link, parts: seq<string>) {
    && parts != [] && (forall p | p in parts :: '.' !in p && ':' !in p)
    && Join(parts, '.') <= full
    && (|Join(parts, '.')| < |full| ==> full[|Join(parts, '.')|] == ':')
  }

  /** The first occurrence of the last part that starts with a dollar sign. */
  ghost predicate CutsAt(parts: seq<string>, k: nat) {
    && k < |parts| && parts[k] != "" && parts[k][0] == '$' && parts[k] !in parts[..k]
    && (forall j | k < j < |parts| && parts[j] != "" && parts[j][0] == '$' :: parts[j] == parts[k])
  }

  lemma {:induction false} SplitJoin(parts: seq<string>, c: char)
    requires parts != [] && forall p | p in parts :: c !in p
    ensures Split(Join(parts, c), c) == parts
  {
    if |parts| == 1 {
      SplitNothing(parts[0], c);
    } else {
      SplitJoin(parts[1..], c);
      var tail := [c] + Join(parts[1..], c);
      assert tail[1..] == Join(parts[1..], c);
      SplitPart(parts[0], tail, c);
      assert Join(parts, c) == parts[0] + tail && parts[0] + "" == parts[0];
      assert parts == [parts[0]] + parts[1..];
    }
  }

  lemma PartsAre(full: Link, parts: seq<string>)
    requires PartsOf(full, parts)
    ensures Split(Split(full, ':')[0], '.') == parts
  {
    var head := Join(parts, '.');
    var tail := full[|head|..];
    JoinWithout(parts, '.', ':');
    assert full == head + tail;
    SplitPart(head, tail, ':');
    assert head + "" == head;
    SplitJoin(parts, '.');
  }

  lemma {:induction false} JoinWithout(parts: seq<string>, c: char, d: char)
    requires c != d && forall p | p in parts :: d !in p
    ensures d !in Join(parts, c)
  {
    if |parts| > 1 {
      JoinWithout(parts[1..], c, d);
    }
  }

  lemma LastNamedIs(parts: seq<string>, k: nat)
    requires CutsAt(parts, k)
    ensures LastNamed(parts) == Some(parts[k])
    decreases |parts|
  {
    var n := |parts| - 1;
    if k < n {
      LastNamedIs(parts[..n], k);
    }
  }

  lemma {:induction false} FirstIndexIs(parts: seq<string>, k: nat)
    requires k < |parts| && parts[k] !in parts[..k]
    ensures FirstIndex(parts, parts[k]) == k
  {
    if k > 0 {
      assert parts[0] in parts[..k];
      assert parts[1..][..k - 1] == parts[..k][1..];
      FirstIndexIs(parts[1..], k - 1);
    }
  }

  /** A link is cut behind the first occurrence of the last part that starts with a dollar
      sign; without such a part there is no resource link. */
  lemma ExtractMeaning(full: Link, parts: seq<string>)
    requires PartsOf(full, parts)
    ensures forall k: nat | CutsAt(parts, k) :: ExtractLink(full) == Some(Join(parts[..k + 1], '.'))
    ensures ExtractLink(full).None? <==> forall p | p in parts :: p == "" || p[0] != '$'
  {
    PartsAre(full, parts);
    forall k: nat | CutsAt(parts, k)
      ensures ExtractLink(full) == Some(Join(parts[..k + 1], '.'))
    {
      LastNamedIs(parts, k);
      FirstIndexIs(parts, k);
    }
  }

  /** The namespace key of an element, a resource and an import. */
  function ElementLink(element: string): Link {
    "$" + element
  }

  function ResourceLink(prefix: Link, name: string): Link {
    prefix + ".$" + name
  }

  function ImportLink(element: string, name: string): Link {
    ElementLink(element) + ".imports.$" + name
  }

  lemma {:induction false} SplitAppendPart(s: string, p: string, c: char)
    requires c !in p
    ensures Split(s + [c] + p, c) == Split(s, c) + [p]
  {
    if s == "" {
      assert s + [c] + p == [c] + p && ([c] + p)[1..] == p;
      SplitPart(p, "", c);
      assert p + "" == p;
    } else {
      SplitAppendPart(s[1..], p, c);
      var rest := Split(s[1..], c);
      assert (s + [c] + p)[1..] == s[1..] + [c] + p;
    }
  }

  /** A resource link without a colon in its last part is its own key: clearing parameters
      leaves it, and clearing takes a parameter off it. */
  lemma ClearedLink(prefix: Link, name: string, parameter: string)
    requires '.' !in name && ':' !in name && '.' !in parameter
    ensures ClearParameters(ResourceLink(prefix, name)) == ResourceLink(prefix, name)
    ensures ClearParameters(ResourceLink(prefix, name) + ":" + parameter) == ResourceLink(prefix, name)
  {
    var part := "$" + name;
    assert ResourceLink(prefix, name) == prefix + "." + part;
    assert ResourceLink(prefix, name) + ":" + parameter == prefix + "." + (part + (":" + parameter));
    SplitAppendPart(prefix, part, '.');
    SplitAppendPart(prefix, part + (":" + parameter), '.');
    SplitPart(part, "", ':');
    SplitPart(part, ":" + parameter, ':');
    assert part + "" == part;
    assert (":" + parameter)[1..] == parameter;
    var parts := Split(prefix, '.');
    assert (parts + [part])[..|parts|] == parts;
    assert (parts + [part + (":" + parameter)])[..|parts|] == parts;
    JoinSplit(ResourceLink(prefix, name), '.');
  }
}
