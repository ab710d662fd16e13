/** How a template is written, and what it stands for. */
module Templates {
  import opened Common
  import opened Documents
  import opened Links
  import opened Rendering
  import opened TargetStates

  /** A piece of a template as it is written: plain text, a reference between braces, or
      braces that a backslash keeps. */
  datatype Part = Literal(text: string) | Reference(link: Link) | Escaped(text: string)

  function PartText(part: Part): string {
    match part
    case Literal(x) => x
    case Reference(link) => "{" + link + "}"
    case Escaped(x) => "\\{" + x + "}"
  }

  function PartsText(parts: seq<Part>): string {
    if parts == [] then "" else PartText(parts[0]) + PartsText(parts[1..])
  }

  ghost predicate Plainly(part: Part) {
    match part
    case Literal(x) => '{' !in x && '\\' !in x
    case Reference(link) => '}' !in link && '\n' !in link
    case Escaped(x) => '}' !in x && '\n' !in x
  }

  /** The template `f"..."` of these parts; what follows the last quote is cut off. */
  function Template(parts: seq<Part>, tail: string): string {
    "f\"" + PartsText(parts) + "\"" + tail
  }

  ghost predicate FillsPart(w: World, element: string, part: Part, t: string) {
    match part
    case Literal(x) => t == x
    case Reference(link) => exists v :: StandsFor(w, element, link, v) && t == w.text(v)
    case Escaped(x) => t == "{" + x + "}"
  }

  ghost predicate FillsParts(w: World, element: string, parts: seq<Part>, t: string) {
    if parts == [] then t == ""
    else exists k | 0 <= k <= |t| :: FillsPart(w, element, parts[0], t[..k]) && FillsParts(w, element, parts[1..], t[k..])
  }

  /** Single characters, as the search goes through plain text. */
  function Chars(s: string): seq<Piece> {
    if s == "" then [] else [Plain([s[0]])] + Chars(s[1..])
  }

  function PartPieces(part: Part): seq<Piece> {
    match part
    case Literal(x) => Chars(x)
    case Reference(link) => [Hole(link)]
    case Escaped(x) => [Plain("{" + x + "}")]
  }

  lemma {:induction false} ClosingAt(s: string, rest: string)
    requires '}' !in s && '\n' !in s
    ensures Closing(s + "}" + rest) == Some(|s|)
  {
    if s != "" {
      ClosingAt(s[1..], rest);
      assert (s + "}" + rest)[1..] == s[1..] + "}" + rest;
    }
  }

  lemma {:induction false} CharsFirst(s: string, rest: string)
    requires '{' !in s && '\\' !in s
    ensures Pieces(s + rest) == Chars(s) + Pieces(rest)
  {
    if s == "" {
      assert s + rest == rest;
    } else {
      CharsFirst(s[1..], rest);
      assert (s + rest)[1..] == s[1..] + rest && s[0] in s;
    }
  }

  lemma HoleFirst(link: string, rest: string)
    requires '}' !in link && '\n' !in link
    ensures Pieces("{" + link + "}" + rest) == [Hole(link)] + Pieces(rest)
  {
    var s := "{" + link + "}" + rest;
    ClosingAt(link, rest);
    assert s[1..] == link + "}" + rest;
    assert s[1..1 + |link|] == link && s[2 + |link|..] == rest;
  }

  lemma EscapedFirst(x: string, rest: string)
    requires '}' !in x && '\n' !in x
    ensures Pieces("\\{" + x + "}" + rest) == [Plain("{" + x + "}")] + Pieces(rest)
  {
    var s := "\\{" + x + "}" + rest;
    ClosingAt(x, rest);
    assert s[2..] == x + "}" + rest;
    assert s[1..3 + |x|] == "{" + x + "}" && s[3 + |x|..] == rest;
  }

  lemma PartFirst(part: Part, rest: string)
    requires Plainly(part)
    ensures Pieces(PartText(part) + rest) == PartPieces(part) + Pieces(rest)
  {
    match part
    case Literal(x) => CharsFirst(x, rest);
    case Reference(link) => HoleFirst(link, rest);
    case Escaped(x) => EscapedFirst(x, rest);
  }

  lemma {:induction false} LastQuoteAt(s: string, tail: string)
    requires '"' !in tail
    ensures LastQuote(s + "\"" + tail) == |s|
    decreases tail
  {
    var all := s + "\"" + tail;
    if tail != "" {
      var k := |tail| - 1;
      LastQuoteAt(s, tail[..k]);
      assert all[..|all| - 1] == s + "\"" + tail[..k] && all[|all| - 1] == tail[k];
    }
  }

  /** The text splits at `k` between the two lists of pieces. */
  ghost predicate SplitsAt(w: World, element: string, a: seq<Piece>, b: seq<Piece>, t: string, k: nat) {
    k <= |t| && Filled(w, element, a, t[..k]) && Filled(w, element, b, t[k..])
  }

  lemma FilledAppend(w: World, element: string, a: seq<Piece>, b: seq<Piece>, t: string)
    ensures Filled(w, element, a + b, t) <==> exists k: nat :: SplitsAt(w, element, a, b, t, k)
  {
    if ts :| Fills(w, element, a + b, ts) && t == Concat(ts) {
      var k := FilledSplits(w, element, a, b, ts);
    }
    if k: nat :| SplitsAt(w, element, a, b, t, k) {
      FilledJoins(w, element, a, b, t[..k], t[k..]);
      assert t == t[..k] + t[k..];
    }
  }

  lemma FilledSplits(w: World, element: string, a: seq<Piece>, b: seq<Piece>, ts: seq<string>) returns (k: nat)
    requires Fills(w, element, a + b, ts)
    ensures SplitsAt(w, element, a, b, Concat(ts), k)
  {
    var xs, ys, t := ts[..|a|], ts[|a|..], Concat(ts);
    FillsFirst(w, element, a, b, ts);
    FillsRest(w, element, a, b, ts);
    assert t == Concat(xs) + Concat(ys) by {
      ConcatAppend(xs, ys);
      assert ts == xs + ys;
    }
    k := |Concat(xs)|;
    assert t[..k] == Concat(xs) && t[k..] == Concat(ys);
  }

  lemma FilledJoins(w: World, element: string, a: seq<Piece>, b: seq<Piece>, x: string, y: string)
    requires Filled(w, element, a, x) && Filled(w, element, b, y)
    ensures Filled(w, element, a + b, x + y)
  {
    var xs :| Fills(w, element, a, xs) && x == Concat(xs);
    var ys :| Fills(w, element, b, ys) && y == Concat(ys);
    ConcatAppend(xs, ys);
    assert Fills(w, element, a + b, xs + ys);
  }

  lemma FillsFirst(w: World, element: string, a: seq<Piece>, b: seq<Piece>, ts: seq<string>)
    requires Fills(w, element, a + b, ts)
    ensures Fills(w, element, a, ts[..|a|])
  {
    forall i | 0 <= i < |a|
      ensures FillsPiece(w, element, a[i], ts[..|a|][i])
    {
      assert FillsPiece(w, element, (a + b)[i], ts[i]);
    }
  }

  lemma FillsRest(w: World, element: string, a: seq<Piece>, b: seq<Piece>, ts: seq<string>)
    requires Fills(w, element, a + b, ts)
    ensures Fills(w, element, b, ts[|a|..])
  {
    forall i | 0 <= i < |b|
      ensures FillsPiece(w, element, b[i], ts[|a|..][i])
    {
      assert FillsPiece(w, element, (a + b)[|a| + i], ts[|a| + i]);
    }
  }

  lemma {:induction false} ConcatAppend(xs: seq<string>, ys: seq<string>)
    ensures Concat(xs + ys) == Concat(xs) + Concat(ys)
  {
    if xs == [] {
      assert xs + ys == ys;
    } else {
      ConcatAppend(xs[1..], ys);
      assert (xs + ys)[1..] == xs[1..] + ys;
    }
  }

  lemma {:induction false} CharsFilled(w: World, element: string, s: string, t: string)
    ensures Filled(w, element, Chars(s), t) <==> t == s
  {
    var ts := seq(|s|, i requires 0 <= i < |s| => [s[i]]);
    CharsAre(s);
    ConcatChars(s, ts);
    assert Fills(w, element, Chars(s), ts);
    forall xs | Fills(w, element, Chars(s), xs)
      ensures xs == ts
    {
      assert forall i | 0 <= i < |s| :: FillsPiece(w, element, Chars(s)[i], xs[i]);
    }
  }

  lemma {:induction false} CharsAre(s: string)
    ensures |Chars(s)| == |s| && forall i | 0 <= i < |s| :: Chars(s)[i] == Plain([s[i]])
  {
    if s != "" {
      CharsAre(s[1..]);
    }
  }

  lemma {:induction false} ConcatChars(s: string, ts: seq<string>)
    requires |ts| == |s| && forall i | 0 <= i < |s| :: ts[i] == [s[i]]
    ensures Concat(ts) == s
  {
    if s != "" {
      ConcatChars(s[1..], ts[1..]);
    }
  }

  lemma OnePieceFilled(w: World, element: string, piece: Piece, t: string)
    ensures Filled(w, element, [piece], t) <==> FillsPiece(w, element, piece, t)
  {
    assert Concat([t]) == t;
    if FillsPiece(w, element, piece, t) {
      assert Fills(w, element, [piece], [t]);
    }
    if ts :| Fills(w, element, [piece], ts) && t == Concat(ts) {
      assert FillsPiece(w, element, [piece][0], ts[0]);
      assert ts[1..] == [] && Concat(ts) == ts[0] + "" == ts[0];
    }
  }

  lemma PartFilled(w: World, element: string, part: Part, t: string)
    ensures Filled(w, element, PartPieces(part), t) <==> FillsPart(w, element, part, t)
  {
    match part
    case Literal(x) => CharsFilled(w, element, x, t);
    case Reference(link) => OnePieceFilled(w, element, Hole(link), t);
    case Escaped(x) => OnePieceFilled(w, element, Plain("{" + x + "}"), t);
  }

  lemma {:induction false} PartsFilled(w: World, element: string, parts: seq<Part>, t: string)
    requires forall part | part in parts :: Plainly(part)
    ensures Filled(w, element, Pieces(PartsText(parts)), t) <==> FillsParts(w, element, parts, t)
    decreases parts
  {
    if parts == [] {
      NothingFilled(w, element, t);
    } else {
      var rest := Pieces(PartsText(parts[1..]));
      PartFirst(parts[0], PartsText(parts[1..]));
      FilledAppend(w, element, PartPieces(parts[0]), rest, t);
      forall k: nat | k <= |t|
        ensures SplitsAt(w, element, PartPieces(parts[0]), rest, t, k) <==>
                FillsPart(w, element, parts[0], t[..k]) && FillsParts(w, element, parts[1..], t[k..])
      {
        PartFilled(w, element, parts[0], t[..k]);
        PartsFilled(w, element, parts[1..], t[k..]);
      }
    }
  }

  lemma NothingFilled(w: World, element: string, t: string)
    ensures Filled(w, element, [], t) <==> t == ""
  {
    if t == "" {
      assert Fills(w, element, [], []);
    }
  }

  /** A template becomes its plain text as it is, with what the references in braces stand
      for in their place, and escaped braces without their backslash. */
  lemma TemplateMeans(w: World, element: string, parts: seq<Part>, tail: string, r: Document)
    requires '"' !in tail && forall part | part in parts :: Plainly(part)
    ensures Means(w, element, Text(Template(parts, tail)), r) <==> r.Text? && FillsParts(w, element, parts, r.text)
  {
    TemplateRead(parts, tail);
    if r.Text? {
      PartsFilled(w, element, parts, r.text);
    }
  }

  lemma TemplateRead(parts: seq<Part>, tail: string)
    requires '"' !in tail
    ensures var s := Template(parts, tail);
            s != "" && s[0] != '$' && |s| >= 2 && s[..2] == "f\"" && TemplatePieces(s) == Pieces(PartsText(parts))
  {
    var s, text := Template(parts, tail), PartsText(parts);
    LastQuoteAt("f\"" + text, tail);
    assert s == "f\"" + text + "\"" + tail;
    assert s[..2] == "f\"" && s[2..2 + |text|] == text;
    assert text == "" ==> Pieces(text) == [];
  }
}
