/**
 What a rendered target state is, said without the renderer: each reference is replaced by
 the value at the end of its path, each hole of a template by that value's text, and
 everything else stays.
 */
module TargetStates {
  import opened Common
  import opened Documents
  import opened LinkForms
  import opened Links
  import opened Rendering

  // ---- What a reference stands for ----

  /** The value of the dictionary's first entry with this key. */
  ghost predicate Leads(d: Document, key: string, e: Document) {
    d.Dict? && exists i :: 0 <= i < |d.fields| && d.fields[i] == Field(key, e) && forall j | 0 <= j < i :: d.fields[j].key != key
  }

  /** The values passed on the way along a path. */
  ghost predicate Trail(ds: seq<Document>, path: seq<string>) {
    |ds| == |path| + 1 && forall i | 0 <= i < |path| :: Leads(ds[i], path[i], ds[i + 1])
  }

  /** What is reported for the resource, else its rendered target state. */
  ghost predicate IsState(w: World, u: Uuid, d: Document)
    requires u in w.resources
  {
    if w.resources[u].actual.Some? then w.resources[u].actual == Some(d)
    else exists depth: nat :: RenderState(w, u, depth) == Done(d)
  }

  /** Without a path what is reported; one parameter that names a method, what it returns; else
      the end of the path from the resource's state. */
  ghost predicate ValueAt(w: World, u: Uuid, path: seq<string>, v: Document)
    requires u in w.resources
  {
    var r := w.resources[u];
    if path == [] then r.actual == Some(v)
    else if |path| == 1 && w.methodCall(r, path[0]).Some? then w.methodCall(r, path[0]).value == Some(v)
    else exists ds :: Trail(ds, path) && IsState(w, u, ds[0]) && ds[|path|] == v
  }

  ghost predicate StandsFor(w: World, element: string, link: Link, v: Document) {
    exists location, name, path ::
      && Written(link, location, name, path)
      && element in w.namespaces && location in w.namespaces[element]
      && var found := w.namespaces[element][location];
      && found.resource in w.resources && found.name == name && ValueAt(w, found.resource, path, v)
  }

  lemma {:induction false} LookupIff(fields: seq<Field>, key: string, e: Document)
    ensures Lookup(fields, key) == Some(e) <==> Leads(Dict(fields), key, e)
  {
    if fields != [] {
      if fields[0].key == key {
        assert Dict(fields).fields[0] == fields[0];
      } else {
        LookupIff(fields[1..], key, e);
        if Leads(Dict(fields[1..]), key, e) {
          var i :| 0 <= i < |fields[1..]| && fields[1..][i] == Field(key, e) && forall j | 0 <= j < i :: fields[1..][j].key != key;
          assert fields[i + 1] == Field(key, e);
          forall j | 0 <= j < i + 1
            ensures fields[j].key != key
          {
            assert j > 0 ==> fields[j] == fields[1..][j - 1];
          }
        }
        if Leads(Dict(fields), key, e) {
          var i :| 0 <= i < |fields| && fields[i] == Field(key, e) && forall j | 0 <= j < i :: fields[j].key != key;
          assert fields[1..][i - 1] == Field(key, e);
          assert forall j | 0 <= j < i - 1 :: fields[1..][j] == fields[j + 1];
        }
      }
    }
  }

  /** Following a path ends where a trail along it ends. */
  lemma {:induction false} FollowIff(d: Document, path: seq<string>, v: Document)
    ensures Follow(d, path) == Done(v) <==> exists ds :: Trail(ds, path) && ds[0] == d && ds[|path|] == v
    decreases |path|
  {
    if path == [] {
      if d == v {
        assert Trail([d], path);
      }
    } else {
      if Follow(d, path) == Done(v) {
        var e := Lookup(d.fields, path[0]).value;
        LookupIff(d.fields, path[0], e);
        FollowIff(e, path[1..], v);
        var ds :| Trail(ds, path[1..]) && ds[0] == e && ds[|path[1..]|] == v;
        assert Trail([d] + ds, path) by {
          forall i | 0 <= i < |path|
            ensures Leads(([d] + ds)[i], path[i], ([d] + ds)[i + 1])
          {
            assert i > 0 ==> Leads(ds[i - 1], path[1..][i - 1], ds[i]);
          }
        }
      }
      if ds :| Trail(ds, path) && ds[0] == d && ds[|path|] == v {
        assert Leads(ds[0], path[0], ds[1]);
        LookupIff(d.fields, path[0], ds[1]);
        assert Trail(ds[1..], path[1..]) by {
          forall i | 0 <= i < |path[1..]|
            ensures Leads(ds[1..][i], path[1..][i], ds[1..][i + 1])
          {
            assert Leads(ds[i + 1], path[i + 1], ds[i + 2]);
          }
        }
        FollowIff(ds[1], path[1..], v);
      }
    }
  }

  lemma RenderedIsStand(w: World, element: string, link: Link, depth: nat)
    requires ReferenceValue(w, element, link, depth).Done?
    ensures StandsFor(w, element, link, ReferenceValue(w, element, link, depth).value)
  {
    var location, name, path := ClearParameters(link), ParameterName(link), ParameterPath(link);
    var v := ReferenceValue(w, element, link, depth).value;
    EveryLinkIsWritten(link);
    ReadAsWritten(link, location, name, path);
    var found := w.namespaces[element][location];
    var r := w.resources[found.resource];
    if path != [] && Called(w, r, path).None? {
      var d := if r.actual.Some? then r.actual.value else RenderState(w, found.resource, depth - 1).value;
      FollowIff(d, path, v);
      assert IsState(w, found.resource, d);
    }
    assert ValueAt(w, found.resource, path, v);
  }

  lemma StandIsRendered(w: World, element: string, link: Link, v: Document) returns (depth: nat)
    requires StandsFor(w, element, link, v)
    ensures ReferenceValue(w, element, link, depth) == Done(v)
  {
    var location, name, path :|
      && Written(link, location, name, path)
      && element in w.namespaces && location in w.namespaces[element]
      && var found := w.namespaces[element][location];
      && found.resource in w.resources && found.name == name && ValueAt(w, found.resource, path, v);
    ReadAsWritten(link, location, name, path);
    var u := w.namespaces[element][location].resource;
    var r := w.resources[u];
    depth := 0;
    if path != [] && Called(w, r, path).None? {
      var ds :| Trail(ds, path) && IsState(w, u, ds[0]) && ds[|path|] == v;
      FollowIff(ds[0], path, v);
      if r.actual.None? {
        var enough: nat :| RenderState(w, u, enough) == Done(ds[0]);
        depth := enough + 1;
      }
    }
  }

  // ---- What a value stands for ----

  function Concat(ts: seq<string>): string {
    if ts == [] then "" else ts[0] + Concat(ts[1..])
  }

  /** Plain pieces stay, and each hole becomes the text of what it stands for. */
  ghost predicate FillsPiece(w: World, element: string, piece: Piece, t: string) {
    match piece
    case Plain(x) => t == x
    case Hole(link) => exists v :: StandsFor(w, element, link, v) && t == w.text(v)
  }

  ghost predicate Fills(w: World, element: string, pieces: seq<Piece>, ts: seq<string>) {
    |ts| == |pieces| && forall i | 0 <= i < |pieces| :: FillsPiece(w, element, pieces[i], ts[i])
  }

  ghost predicate Filled(w: World, element: string, pieces: seq<Piece>, t: string) {
    exists ts :: Fills(w, element, pieces, ts) && t == Concat(ts)
  }

  /** A reference becomes what it stands for, a template its text, everything else stays. */
  ghost predicate Means(w: World, element: string, d: Document, r: Document)
    decreases d
  {
    match d
    case Atom(_) => r == d
    case Text(s) =>
      if s != "" && s[0] == '$' then StandsFor(w, element, s, r)
      else if |s| >= 2 && s[..2] == "f\"" then r.Text? && Filled(w, element, TemplatePieces(s), r.text)
      else r == d
    case List(items) =>
      r.List? && |r.items| == |items| && forall i | 0 <= i < |items| :: Means(w, element, items[i], r.items[i])
    case Dict(fields) => r.Dict? && MeansFields(w, element, fields, r.fields)
  }

  ghost predicate MeansFields(w: World, element: string, fields: seq<Field>, r: seq<Field>)
    decreases fields
  {
    |r| == |fields| && forall i | 0 <= i < |fields| :: r[i].key == fields[i].key && Means(w, element, fields[i].value, r[i].value)
  }

  ghost predicate HasKey(fields: seq<Field>, key: string) {
    exists f | f in fields :: f.key == key
  }

  /** A target state: the resource's value, rendered, with the identifier added if missing. */
  ghost predicate IsTargetState(w: World, u: Uuid, d: Document)
    requires u in w.resources
  {
    var r := w.resources[u];
    && d.Dict? && |d.fields| >= |r.value|
    && MeansFields(w, r.element, r.value, d.fields[..|r.value|])
    && d.fields[|r.value|..] == if HasKey(r.value, "uuid") then [] else [Field("uuid", Text(r.uuid))]
  }

  // ---- What is rendered is meant ----

  lemma {:induction false} PiecesMean(w: World, element: string, pieces: seq<Piece>, depth: nat)
    requires RenderPieces(w, element, pieces, depth).Done?
    ensures Filled(w, element, pieces, RenderPieces(w, element, pieces, depth).value)
  {
    if pieces == [] {
      assert Fills(w, element, pieces, []);
    } else {
      PiecesMean(w, element, pieces[1..], depth);
      var rest := RenderPieces(w, element, pieces[1..], depth).value;
      var ts :| Fills(w, element, pieces[1..], ts) && rest == Concat(ts);
      var t := match pieces[0] case Plain(x) => x case Hole(link) => w.text(ReferenceValue(w, element, link, depth).value);
      assert FillsPiece(w, element, pieces[0], t) by {
        if pieces[0].Hole? {
          RenderedIsStand(w, element, pieces[0].link, depth);
        }
      }
      FillsMore(w, element, pieces, t, ts);
    }
  }

  lemma FillsMore(w: World, element: string, pieces: seq<Piece>, t: string, ts: seq<string>)
    requires pieces != [] && FillsPiece(w, element, pieces[0], t) && Fills(w, element, pieces[1..], ts)
    ensures Fills(w, element, pieces, [t] + ts) && Concat([t] + ts) == t + Concat(ts)
  {
    forall i | 0 <= i < |pieces|
      ensures FillsPiece(w, element, pieces[i], ([t] + ts)[i])
    {
      assert i > 0 ==> FillsPiece(w, element, pieces[1..][i - 1], ts[i - 1]);
    }
    assert ([t] + ts)[1..] == ts;
  }

  lemma {:induction false} RenderMeans(w: World, element: string, d: Document, depth: nat)
    requires Render(w, element, d, depth).Done?
    ensures Means(w, element, d, Render(w, element, d, depth).value)
    decreases d, 1
  {
    match d
    case Atom(_) =>
    case Text(s) =>
      if IsReference(s) {
        RenderedIsStand(w, element, s, depth);
      } else if IsTemplate(s) {
        PiecesMean(w, element, TemplatePieces(s), depth);
      }
    case List(items) => ItemsMean(w, element, items, depth);
    case Dict(fields) => FieldsMean(w, element, fields, depth);
  }

  lemma {:induction false} ItemsMean(w: World, element: string, items: seq<Document>, depth: nat)
    requires RenderItems(w, element, items, depth).Done?
    ensures var r := RenderItems(w, element, items, depth).value;
            |r| == |items| && forall i | 0 <= i < |items| :: Means(w, element, items[i], r[i])
    decreases items, 0
  {
    if items != [] {
      RenderMeans(w, element, items[0], depth);
      ItemsMean(w, element, items[1..], depth);
    }
  }

  lemma {:induction false} FieldsMean(w: World, element: string, fields: seq<Field>, depth: nat)
    requires RenderFields(w, element, fields, depth).Done?
    ensures MeansFields(w, element, fields, RenderFields(w, element, fields, depth).value)
    decreases fields, 0
  {
    if fields != [] {
      RenderMeans(w, element, fields[0].value, depth);
      FieldsMean(w, element, fields[1..], depth);
    }
  }

  // ---- What is meant is rendered ----

  lemma {:induction false} ReferenceMore(w: World, element: string, link: Link, depth: nat, more: nat)
    requires ReferenceValue(w, element, link, depth) != Endless && depth <= more
    ensures ReferenceValue(w, element, link, more) == ReferenceValue(w, element, link, depth)
    decreases more
  {
    if depth < more {
      ReferenceMore(w, element, link, depth, more - 1);
      ReferenceStable(w, element, link, more - 1);
    }
  }

  lemma {:induction false} PiecesMore(w: World, element: string, pieces: seq<Piece>, depth: nat, more: nat)
    requires RenderPieces(w, element, pieces, depth) != Endless && depth <= more
    ensures RenderPieces(w, element, pieces, more) == RenderPieces(w, element, pieces, depth)
    decreases more
  {
    if depth < more {
      PiecesMore(w, element, pieces, depth, more - 1);
      PiecesStable(w, element, pieces, more - 1);
    }
  }

  lemma {:induction false} RenderMore(w: World, element: string, d: Document, depth: nat, more: nat)
    requires Render(w, element, d, depth) != Endless && depth <= more
    ensures Render(w, element, d, more) == Render(w, element, d, depth)
    decreases more
  {
    if depth < more {
      RenderMore(w, element, d, depth, more - 1);
      RenderStable(w, element, d, more - 1);
    }
  }

  lemma {:induction false} ItemsMore(w: World, element: string, items: seq<Document>, depth: nat, more: nat)
    requires RenderItems(w, element, items, depth) != Endless && depth <= more
    ensures RenderItems(w, element, items, more) == RenderItems(w, element, items, depth)
    decreases more
  {
    if depth < more {
      ItemsMore(w, element, items, depth, more - 1);
      ItemsStable(w, element, items, more - 1);
    }
  }

  lemma {:induction false} FieldsMore(w: World, element: string, fields: seq<Field>, depth: nat, more: nat)
    requires RenderFields(w, element, fields, depth) != Endless && depth <= more
    ensures RenderFields(w, element, fields, more) == RenderFields(w, element, fields, depth)
    decreases more
  {
    if depth < more {
      FieldsMore(w, element, fields, depth, more - 1);
      FieldsStable(w, element, fields, more - 1);
    }
  }

  function Max(a: nat, b: nat): nat {
    if a < b then b else a
  }

  lemma {:induction false} FilledIsRendered(w: World, element: string, pieces: seq<Piece>, ts: seq<string>) returns (depth: nat)
    requires Fills(w, element, pieces, ts)
    ensures RenderPieces(w, element, pieces, depth) == Done(Concat(ts))
    decreases pieces
  {
    if pieces == [] {
      return 0;
    }
    assert FillsPiece(w, element, pieces[0], ts[0]);
    forall i | 0 <= i < |pieces[1..]|
      ensures FillsPiece(w, element, pieces[1..][i], ts[1..][i])
    {
      assert FillsPiece(w, element, pieces[i + 1], ts[i + 1]);
    }
    var rest := FilledIsRendered(w, element, pieces[1..], ts[1..]);
    depth := rest;
    if pieces[0].Hole? {
      var v :| StandsFor(w, element, pieces[0].link, v) && ts[0] == w.text(v);
      var first := StandIsRendered(w, element, pieces[0].link, v);
      depth := Max(first, rest);
      ReferenceMore(w, element, pieces[0].link, first, depth);
    }
    PiecesMore(w, element, pieces[1..], rest, depth);
  }

  lemma {:induction false} MeantIsRendered(w: World, element: string, d: Document, r: Document) returns (depth: nat)
    requires Means(w, element, d, r)
    ensures Render(w, element, d, depth) == Done(r)
    decreases d, 1
  {
    match d
    case Atom(_) => depth := 0;
    case Text(s) =>
      depth := 0;
      if IsReference(s) {
        depth := StandIsRendered(w, element, s, r);
      } else if IsTemplate(s) {
        var ts :| Fills(w, element, TemplatePieces(s), ts) && r.text == Concat(ts);
        depth := FilledIsRendered(w, element, TemplatePieces(s), ts);
      }
    case List(items) => depth := MeantItemsRendered(w, element, items, r.items);
    case Dict(fields) => depth := MeantFieldsRendered(w, element, fields, r.fields);
  }

  lemma {:induction false} MeantItemsRendered(w: World, element: string, items: seq<Document>, r: seq<Document>) returns (depth: nat)
    requires |r| == |items| && forall i | 0 <= i < |items| :: Means(w, element, items[i], r[i])
    ensures RenderItems(w, element, items, depth) == Done(r)
    decreases items, 0
  {
    if items == [] {
      return 0;
    }
    var first := MeantIsRendered(w, element, items[0], r[0]);
    var rest := MeantItemsRendered(w, element, items[1..], r[1..]);
    depth := Max(first, rest);
    RenderMore(w, element, items[0], first, depth);
    ItemsMore(w, element, items[1..], rest, depth);
    assert r == [r[0]] + r[1..];
  }

  lemma {:induction false} MeantFieldsRendered(w: World, element: string, fields: seq<Field>, r: seq<Field>) returns (depth: nat)
    requires MeansFields(w, element, fields, r)
    ensures RenderFields(w, element, fields, depth) == Done(r)
    decreases fields, 0
  {
    if fields == [] {
      return 0;
    }
    var first := MeantIsRendered(w, element, fields[0].value, r[0].value);
    var rest := MeantFieldsRendered(w, element, fields[1..], r[1..]);
    depth := Max(first, rest);
    RenderMore(w, element, fields[0].value, first, depth);
    FieldsMore(w, element, fields[1..], rest, depth);
    assert r == [Field(fields[0].key, r[0].value)] + r[1..];
  }

  // ---- Target states ----

  lemma {:induction false} LookupHasKey(fields: seq<Field>, key: string)
    ensures Lookup(fields, key).Some? <==> HasKey(fields, key)
  {
    if fields != [] && fields[0].key != key {
      LookupHasKey(fields[1..], key);
      assert HasKey(fields[1..], key) <==> HasKey(fields, key);
    } else if fields != [] {
      assert fields[0] in fields;
    }
  }

  lemma SameKeys(w: World, element: string, fields: seq<Field>, r: seq<Field>, key: string)
    requires MeansFields(w, element, fields, r)
    ensures HasKey(r, key) <==> HasKey(fields, key)
  {
    if f :| f in r && f.key == key {
      var i :| 0 <= i < |r| && r[i] == f;
      assert fields[i] in fields && fields[i].key == key;
    }
    if f :| f in fields && f.key == key {
      var i :| 0 <= i < |fields| && fields[i] == f;
      assert r[i] in r && r[i].key == key;
    }
  }

  lemma AddedUuid(w: World, u: Uuid, r: seq<Field>)
    requires u in w.resources && MeansFields(w, w.resources[u].element, w.resources[u].value, r)
    ensures var value, uuid := w.resources[u].value, w.resources[u].uuid;
            WithUuid(r, uuid) == r + if HasKey(value, "uuid") then [] else [Field("uuid", Text(uuid))]
  {
    LookupHasKey(r, "uuid");
    SameKeys(w, w.resources[u].element, w.resources[u].value, r, "uuid");
  }

  /** A value is what a resource's target state is rendered to, at some depth, if and only if
      it has the resource's keys, list lengths and plain values, every reference replaced by
      the end of its path from the referred resource's state, every template by its text,
      and the identifier where it was missing. */
  lemma RenderedIff(w: World, u: Uuid, d: Document)
    requires u in w.resources
    ensures (exists depth: nat :: RenderState(w, u, depth) == Done(d)) <==> IsTargetState(w, u, d)
  {
    var element, value := w.resources[u].element, w.resources[u].value;
    if depth: nat :| RenderState(w, u, depth) == Done(d) {
      var r := RenderFields(w, element, value, depth).value;
      FieldsMean(w, element, value, depth);
      AddedUuid(w, u, r);
      assert d.fields[..|value|] == r;
    }
    if IsTargetState(w, u, d) {
      var r := d.fields[..|value|];
      var depth := MeantFieldsRendered(w, element, value, r);
      AddedUuid(w, u, r);
      assert d.fields == r + d.fields[|value|..];
      assert RenderState(w, u, depth) == Done(d);
    }
  }
}
