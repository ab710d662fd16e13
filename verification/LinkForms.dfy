/** How a reference is written: a location and a path of parameters. */
module LinkForms {
  import opened Links
  import opened Rendering

  /** Parameters after a link, each behind a colon. */
  function Suffix(path: seq<string>): string {
    if path == [] then "" else ":" + path[0] + Suffix(path[1..])
  }

  ghost predicate Bare(s: string) {
    '.' !in s && ':' !in s
  }

  /** The link is a location and a path of parameters; the location's last part names the
      resource behind one character (a dollar sign). */
  ghost predicate Written(link: Link, location: Link, name: string, path: seq<string>) {
    && link == location + Suffix(path)
    && (forall k | k in path :: Bare(k))
    && exists front: string, head: string ::
         && location == front + head && Bare(head) && (front == "" || front[|front| - 1] == '.')
         && name == if head == "" then "" else head[1..]
  }

  lemma {:induction false} SuffixHasNoDot(path: seq<string>)
    requires forall k | k in path :: Bare(k)
    ensures '.' !in Suffix(path)
  {
    if path != [] {
      SuffixHasNoDot(path[1..]);
      assert Bare(path[0]);
      assert Suffix(path) == ":" + path[0] + Suffix(path[1..]);
    }
  }

  lemma {:induction false} SplitSuffix(head: string, path: seq<string>)
    requires Bare(head) && forall k | k in path :: Bare(k)
    ensures Split(head + Suffix(path), ':') == [head] + path
    decreases path
  {
    if path == [] {
      SplitNothing(head, ':');
      assert head + Suffix(path) == head;
    } else {
      SplitSuffix(path[0], path[1..]);
      var tail := Suffix(path);
      assert tail[1..] == path[0] + Suffix(path[1..]) && tail[0] == ':';
      assert [path[0]] + path[1..] == path;
      assert Split(tail, ':') == [""] + path;
      SplitPart(head, tail, ':');
      assert head + "" == head;
    }
  }

  /** The last part of a link that goes on after a front ending in a dot. */
  lemma SplitFront(front: string, last: string)
    requires (front == "" || front[|front| - 1] == '.') && '.' !in last
    ensures var parts := Split(front + last, '.');
            && parts[|parts| - 1] == last
            && forall x: string :: Join(parts[..|parts| - 1] + [x], '.') == front + x
  {
    if front == "" {
      assert front + last == last;
      SplitNothing(last, '.');
      forall x: string
        ensures Join([last][..0] + [x], '.') == front + x
      {
        assert [last][..0] + [x] == [x];
      }
    } else {
      var s := front[..|front| - 1];
      assert front == s + ['.'];
      SplitAppendPart(s, last, '.');
      var most, parts := Split(s, '.'), Split(front + last, '.');
      assert parts == most + [last] && parts[..|parts| - 1] == most;
      forall x: string
        ensures Join(most + [x], '.') == front + x
      {
        JoinAppend(most, x, '.');
        JoinSplit(s, '.');
      }
    }
  }

  lemma {:induction false} JoinAppend(parts: seq<string>, x: string, c: char)
    requires parts != []
    ensures Join(parts + [x], c) == Join(parts, c) + [c] + x
  {
    if |parts| > 1 {
      JoinAppend(parts[1..], x, c);
      assert (parts + [x])[1..] == parts[1..] + [x];
    }
  }

  /** A link is read as it was written. */
  lemma ReadAsWritten(link: Link, location: Link, name: string, path: seq<string>)
    requires Written(link, location, name, path)
    ensures ClearParameters(link) == location && ClearParameters(location) == location
    ensures ParameterName(link) == name && ParameterPath(link) == path
  {
    var front: string, head: string :|
      && location == front + head && Bare(head) && (front == "" || front[|front| - 1] == '.')
      && name == if head == "" then "" else head[1..];
    var last := head + Suffix(path);
    assert link == front + last;
    assert Split(last, ':') == [head] + path by {
      SplitSuffix(head, path);
    }
    assert '.' !in last by {
      SuffixHasNoDot(path);
    }
    ReadBack(front, last, head);
    SplitNothing(head, ':');
    ReadBack(front, head, head);
  }

  lemma ReadBack(front: string, last: string, head: string)
    requires (front == "" || front[|front| - 1] == '.') && '.' !in last && Split(last, ':')[0] == head
    ensures ClearParameters(front + last) == front + head
    ensures ParameterName(front + last) == (if head == "" then "" else head[1..])
    ensures ParameterPath(front + last) == Split(last, ':')[1..]
  {
    SplitFront(front, last);
  }

  /** All but the last part, with the dot behind. */
  function Front(parts: seq<string>): string {
    if parts == [] then "" else Join(parts, '.') + "."
  }

  lemma JoinFront(parts: seq<string>, x: string)
    ensures Join(parts + [x], '.') == Front(parts) + x
  {
    if parts != [] {
      JoinAppend(parts, x, '.');
    } else {
      assert parts + [x] == [x];
    }
  }

  lemma PiecesAreBare(part: string)
    requires '.' !in part
    ensures forall h | h in Split(part, ':') :: Bare(h)
  {
    var heads := Split(part, ':');
    JoinSplit(part, ':');
    forall h | h in heads
      ensures Bare(h)
    {
      var i :| 0 <= i < |heads| && heads[i] == h;
      JoinMembers(heads, ':', i);
    }
  }

  lemma WrittenFrom(front: string, head: string, path: seq<string>)
    requires (front == "" || front[|front| - 1] == '.') && Bare(head) && forall k | k in path :: Bare(k)
    ensures Written(front + (head + Suffix(path)), front + head, if head == "" then "" else head[1..], path)
  {
    assert front + (head + Suffix(path)) == front + head + Suffix(path);
  }

  lemma JoinLast(parts: seq<string>)
    requires parts != []
    ensures Join(parts, '.') == Front(parts[..|parts| - 1]) + parts[|parts| - 1]
  {
    var most, last := parts[..|parts| - 1], parts[|parts| - 1];
    assert parts == most + [last];
    JoinFront(most, last);
  }

  lemma LinkFront(link: Link)
    ensures var parts := Split(link, '.');
            link == Front(parts[..|parts| - 1]) + parts[|parts| - 1]
  {
    JoinSplit(link, '.');
    JoinLast(Split(link, '.'));
  }

  lemma ClearedFront(link: Link)
    ensures var parts := Split(link, '.');
            ClearParameters(link) == Front(parts[..|parts| - 1]) + Split(parts[|parts| - 1], ':')[0]
  {
    var parts := Split(link, '.');
    JoinFront(parts[..|parts| - 1], Split(parts[|parts| - 1], ':')[0]);
  }

  /** Every link is written in this way. */
  lemma EveryLinkIsWritten(link: Link)
    ensures Written(link, ClearParameters(link), ParameterName(link), ParameterPath(link))
  {
    var parts := Split(link, '.');
    var k := |parts| - 1;
    var heads := Split(parts[k], ':');
    LinkFront(link);
    ClearedFront(link);
    PiecesAreBare(parts[k]);
    assert parts[k] == heads[0] + Suffix(heads[1..]) by {
      JoinSplit(parts[k], ':');
      HeadAndSuffix(heads);
    }
    WrittenFrom(Front(parts[..k]), heads[0], heads[1..]);
  }

  lemma {:induction false} HeadAndSuffix(heads: seq<string>)
    requires heads != []
    ensures Join(heads, ':') == heads[0] + Suffix(heads[1..])
  {
    if |heads| > 1 {
      HeadAndSuffix(heads[1..]);
    }
  }
}
