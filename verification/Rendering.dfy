/**
 Rendering target states: resource values whose strings may refer to other resources are
 turned into plain values, rendering the referred resources in turn.
 */
module Rendering {
  import opened Common
  import opened Documents
  import opened Links

  /** A resource as the renderer sees it. `actual` is the value reported for it, if any. */
  datatype Resource = Resource(element: string, uuid: string, value: seq<Field>, actual: Option<Document>)

  /** What a link of a namespace leads to: a resource, and the name it goes by there (an
      import goes by its own name). */
  datatype Found = Found(resource: Uuid, name: string)

  /** The engine's namespaces by element, the resources, the methods a manifest may call on
      a resource (none: the call fails), and the conversion to text. */
  datatype World = World(namespaces: map<string, map<Link, Found>>, resources: map<Uuid, Resource>,
                         methodCall: (Resource, string) -> Option<Option<Document>>, text: Document -> string)

  /** `Endless`: the recursion did not end within the given depth. */
  datatype Outcome<+T> = Done(value: T) | Failed | Endless

  // ---- References ----

  /** The pieces of an inline template: plain text, and the holes between braces. */
  datatype Piece = Plain(text: string) | Hole(link: string)

  /** The first closing brace on this line. */
  function Closing(s: string): (r: Option<nat>)
    ensures r.Some? ==> r.value < |s| && s[r.value] == '}'
  {
    if s == "" || s[0] == '\n' then None
    else if s[0] == '}' then Some(0)
    else
      var r := Closing(s[1..]);
      if r.None? then None else Some(r.value + 1)
  }

  function Pieces(s: string): seq<Piece>
    decreases |s|
  {
    if s == "" then []
    else if s[0] == '{' && Closing(s[1..]).Some? then
      var c := Closing(s[1..]).value;
      [Hole(s[1..1 + c])] + Pieces(s[2 + c..])
    else if s[0] == '\\' && |s| > 1 && s[1] == '{' && Closing(s[2..]).Some? then
      var c := Closing(s[2..]).value;
      [Plain(s[1..3 + c])] + Pieces(s[3 + c..])
    else [Plain([s[0]])] + Pieces(s[1..])
  }

  predicate IsReference(s: string) {
    s != "" && s[0] == '$'
  }

  predicate IsTemplate(s: string) {
    |s| >= 2 && s[0] == 'f' && s[1] == '"'
  }

  function LastQuote(s: string): (k: nat)
    requires '"' in s
    ensures k < |s| && s[k] == '"'
  {
    if s[|s| - 1] == '"' then |s| - 1 else LastQuote(s[..|s| - 1])
  }

  function TemplatePieces(s: string): seq<Piece>
    requires IsTemplate(s)
  {
    assert s[1] in s;
    var k := LastQuote(s);
    if k < 2 then [] else Pieces(s[2..k])
  }

  function Holes(pieces: seq<Piece>): set<string> {
    if pieces == [] then {}
    else (if pieces[0].Hole? then {pieces[0].link} else {}) + Holes(pieces[1..])
  }

  /** The references in a value. */
  function References(d: Document): set<string>
    decreases d, 1
  {
    match d
    case Atom(_) => {}
    case Text(s) => if IsReference(s) then {s} else if IsTemplate(s) then Holes(TemplatePieces(s)) else {}
    case List(items) => ItemReferences(items)
    case Dict(fields) => FieldReferences(fields)
  }

  function ItemReferences(items: seq<Document>): set<string>
    decreases items, 0
  {
    if items == [] then {} else References(items[0]) + ItemReferences(items[1..])
  }

  function FieldReferences(fields: seq<Field>): set<string>
    decreases fields, 0
  {
    if fields == [] then {} else References(fields[0].value) + FieldReferences(fields[1..])
  }

  function Find(w: World, element: string, link: Link): Option<Found> {
    var k := ClearParameters(link);
    if element in w.namespaces && k in w.namespaces[element] && w.namespaces[element][k].resource in w.resources
    then Some(w.namespaces[element][k])
    else None
  }

  /** `ResourceLink.parameter`, its name and its path. */
  function ParameterName(link: Link): string {
    var head := Split(Last(Split(link, '.')), ':')[0];
    if head == "" then "" else head[1..]
  }

  function ParameterPath(link: Link): seq<string> {
    Split(Last(Split(link, '.')), ':')[1..]
  }

  function Last(parts: seq<string>): string
    requires parts != []
  {
    parts[|parts| - 1]
  }

  function Called(w: World, r: Resource, path: seq<string>): Option<Option<Document>> {
    if |path| == 1 then w.methodCall(r, path[0]) else None
  }

  /** The resource whose target state is rendered for a reference, if one is. */
  function Reads(w: World, element: string, link: Link): (r: Option<Uuid>)
    ensures r.Some? ==> r.value in w.resources
  {
    var found := Find(w, element, ClearParameters(link));
    if found.None? || ParameterName(link) != found.value.name || ParameterPath(link) == [] then None
    else
      var r := w.resources[found.value.resource];
      if Called(w, r, ParameterPath(link)).Some? || r.actual.Some? then None else Some(found.value.resource)
  }

  // ---- Rendering ----

  function Lookup(fields: seq<Field>, key: string): Option<Document> {
    if fields == [] then None else if fields[0].key == key then Some(fields[0].value) else Lookup(fields[1..], key)
  }

  /** Following a parameter path into a value. */
  function Follow(d: Document, path: seq<string>): (r: Outcome<Document>)
    ensures r != Endless
    decreases |path|
  {
    if path == [] then Done(d)
    else if d.Dict? && Lookup(d.fields, path[0]).Some? then Follow(Lookup(d.fields, path[0]).value, path[1..])
    else Failed
  }

  function WithUuid(fields: seq<Field>, uuid: string): seq<Field> {
    if Lookup(fields, "uuid").Some? then fields else fields + [Field("uuid", Text(uuid))]
  }

  /** `render_target_state`, at most `depth` resources deep. */
  function RenderState(w: World, u: Uuid, depth: nat): Outcome<Document>
    requires u in w.resources
    decreases depth, 3, 0
  {
    match RenderFields(w, w.resources[u].element, w.resources[u].value, depth)
    case Done(fields) => Done(Dict(WithUuid(fields, w.resources[u].uuid)))
    case Failed => Failed
    case Endless => Endless
  }

  function RenderFields(w: World, element: string, fields: seq<Field>, depth: nat): Outcome<seq<Field>>
    decreases depth, 2, fields, 0
  {
    if fields == [] then Done([])
    else
      match Render(w, element, fields[0].value, depth)
      case Failed => Failed
      case Endless => Endless
      case Done(v) =>
        match RenderFields(w, element, fields[1..], depth)
        case Failed => Failed
        case Endless => Endless
        case Done(rest) => Done([Field(fields[0].key, v)] + rest)
  }

  function RenderItems(w: World, element: string, items: seq<Document>, depth: nat): Outcome<seq<Document>>
    decreases depth, 2, items, 0
  {
    if items == [] then Done([])
    else
      match Render(w, element, items[0], depth)
      case Failed => Failed
      case Endless => Endless
      case Done(v) =>
        match RenderItems(w, element, items[1..], depth)
        case Failed => Failed
        case Endless => Endless
        case Done(rest) => Done([v] + rest)
  }

  /** `_recursive_render`. */
  function Render(w: World, element: string, d: Document, depth: nat): Outcome<Document>
    decreases depth, 2, d, 1
  {
    match d
    case Atom(_) => Done(d)
    case Text(s) =>
      if IsReference(s) then ReferenceValue(w, element, s, depth)
      else if IsTemplate(s) then
        match RenderPieces(w, element, TemplatePieces(s), depth)
        case Done(t) => Done(Text(t))
        case Failed => Failed
        case Endless => Endless
      else Done(d)
    case List(items) =>
      (match RenderItems(w, element, items, depth)
       case Done(r) => Done(List(r))
       case Failed => Failed
       case Endless => Endless)
    case Dict(fields) =>
      match RenderFields(w, element, fields, depth)
      case Done(r) => Done(Dict(r))
      case Failed => Failed
      case Endless => Endless
  }

  function RenderPieces(w: World, element: string, pieces: seq<Piece>, depth: nat): Outcome<string>
    decreases depth, 1, pieces
  {
    if pieces == [] then Done("")
    else
      var head := if pieces[0].Plain? then Done(Text(pieces[0].text)) else ReferenceValue(w, element, pieces[0].link, depth);
      match head
      case Failed => Failed
      case Endless => Endless
      case Done(v) =>
        match RenderPieces(w, element, pieces[1..], depth)
        case Failed => Failed
        case Endless => Endless
        case Done(rest) => Done((if pieces[0].Plain? then pieces[0].text else w.text(v)) + rest)
  }

  /** `get_parameter_value` of the resource a reference leads to. */
  function ReferenceValue(w: World, element: string, link: Link, depth: nat): Outcome<Document>
    decreases depth, 0, 0
  {
    var found := Find(w, element, ClearParameters(link));
    if found.None? || ParameterName(link) != found.value.name then Failed
    else
      var r, path := w.resources[found.value.resource], ParameterPath(link);
      if path == [] then if r.actual.None? then Failed else Done(r.actual.value)
      else if Called(w, r, path).Some? then
        (match Called(w, r, path).value
         case Some(d) => Done(d)
         case None => Failed)
      else if r.actual.Some? then Follow(r.actual.value, path)
      else if depth == 0 then Endless
      else
        match RenderState(w, found.value.resource, depth - 1)
        case Done(d) => Follow(d, path)
        case Failed => Failed
        case Endless => Endless
  }

  // ---- Depth ----

  /** Once the depth suffices, more of it changes nothing. */
  lemma {:induction false} ReferenceStable(w: World, element: string, link: Link, depth: nat)
    requires ReferenceValue(w, element, link, depth) != Endless
    ensures ReferenceValue(w, element, link, depth + 1) == ReferenceValue(w, element, link, depth)
    decreases depth, 0, 0
  {
    var read := Reads(w, element, link);
    if read.Some? {
      StateStable(w, read.value, depth - 1);
    }
  }

  lemma {:induction false} PiecesStable(w: World, element: string, pieces: seq<Piece>, depth: nat)
    requires RenderPieces(w, element, pieces, depth) != Endless
    ensures RenderPieces(w, element, pieces, depth + 1) == RenderPieces(w, element, pieces, depth)
    decreases depth, 1, pieces
  {
    if pieces != [] {
      if pieces[0].Hole? {
        ReferenceStable(w, element, pieces[0].link, depth);
      }
      if pieces[0].Plain? || ReferenceValue(w, element, pieces[0].link, depth).Done? {
        PiecesStable(w, element, pieces[1..], depth);
      }
    }
  }

  lemma {:induction false} RenderStable(w: World, element: string, d: Document, depth: nat)
    requires Render(w, element, d, depth) != Endless
    ensures Render(w, element, d, depth + 1) == Render(w, element, d, depth)
    decreases depth, 2, d, 1
  {
    match d
    case Atom(_) =>
    case Text(s) =>
      if IsReference(s) {
        ReferenceStable(w, element, s, depth);
      } else if IsTemplate(s) {
        PiecesStable(w, element, TemplatePieces(s), depth);
      }
    case List(items) => ItemsStable(w, element, items, depth);
    case Dict(fields) => FieldsStable(w, element, fields, depth);
  }

  lemma {:induction false} ItemsStable(w: World, element: string, items: seq<Document>, depth: nat)
    requires RenderItems(w, element, items, depth) != Endless
    ensures RenderItems(w, element, items, depth + 1) == RenderItems(w, element, items, depth)
    decreases depth, 2, items, 0
  {
    if items != [] {
      RenderStable(w, element, items[0], depth);
      if Render(w, element, items[0], depth).Done? {
        ItemsStable(w, element, items[1..], depth);
      }
    }
  }

  lemma {:induction false} FieldsStable(w: World, element: string, fields: seq<Field>, depth: nat)
    requires RenderFields(w, element, fields, depth) != Endless
    ensures RenderFields(w, element, fields, depth + 1) == RenderFields(w, element, fields, depth)
    decreases depth, 2, fields, 0
  {
    if fields != [] {
      RenderStable(w, element, fields[0].value, depth);
      if Render(w, element, fields[0].value, depth).Done? {
        FieldsStable(w, element, fields[1..], depth);
      }
    }
  }

  lemma {:induction false} StateStable(w: World, u: Uuid, depth: nat)
    requires u in w.resources && RenderState(w, u, depth) != Endless
    ensures RenderState(w, u, depth + 1) == RenderState(w, u, depth)
    decreases depth, 3, 0
  {
    FieldsStable(w, w.resources[u].element, w.resources[u].value, depth);
  }

  /** Rendering has one result, however deep the recursion may go. */
  lemma {:induction false} DepthDoesNotMatter(w: World, u: Uuid, depth: nat, more: nat)
    requires u in w.resources && RenderState(w, u, depth) != Endless && depth <= more
    ensures RenderState(w, u, more) == RenderState(w, u, depth)
    decreases more
  {
    if depth < more {
      DepthDoesNotMatter(w, u, depth, more - 1);
      StateStable(w, u, more - 1);
    }
  }

  // ---- Termination ----

  /** Every reference of these reads, if it reads a target state, a resource below a bound. */
  ghost predicate Below(w: World, element: string, links: set<string>, rank: Uuid -> nat, bound: nat) {
    forall t | t in links && Reads(w, element, t).Some? :: rank(Reads(w, element, t).value) < bound
  }

  /** The references between resources without an actual state are acyclic. */
  ghost predicate Acyclic(w: World, rank: Uuid -> nat) {
    forall u | u in w.resources ::
      Below(w, w.resources[u].element, FieldReferences(w.resources[u].value), rank, rank(u))
  }

  lemma {:induction false} ReferenceEnds(w: World, element: string, link: Link, rank: Uuid -> nat, depth: nat)
    requires Acyclic(w, rank) && Below(w, element, {link}, rank, depth)
    ensures ReferenceValue(w, element, link, depth) != Endless
    decreases depth, 0, 0
  {
    var read := Reads(w, element, link);
    assert link in {link};
    if read.Some? {
      StateEnds(w, read.value, rank, depth - 1);
    }
  }

  lemma {:induction false} PiecesEnd(w: World, element: string, pieces: seq<Piece>, rank: Uuid -> nat, depth: nat)
    requires Acyclic(w, rank) && Below(w, element, Holes(pieces), rank, depth)
    ensures RenderPieces(w, element, pieces, depth) != Endless
    decreases depth, 1, pieces
  {
    if pieces != [] {
      if pieces[0].Hole? {
        ReferenceEnds(w, element, pieces[0].link, rank, depth);
      }
      PiecesEnd(w, element, pieces[1..], rank, depth);
    }
  }

  lemma {:induction false} RenderEnds(w: World, element: string, d: Document, rank: Uuid -> nat, depth: nat)
    requires Acyclic(w, rank) && Below(w, element, References(d), rank, depth)
    ensures Render(w, element, d, depth) != Endless
    decreases depth, 2, d, 1
  {
    match d
    case Atom(_) =>
    case Text(s) =>
      if IsReference(s) {
        ReferenceEnds(w, element, s, rank, depth);
      } else if IsTemplate(s) {
        PiecesEnd(w, element, TemplatePieces(s), rank, depth);
      }
    case List(items) => ItemsEnd(w, element, items, rank, depth);
    case Dict(fields) => FieldsEnd(w, element, fields, rank, depth);
  }

  lemma {:induction false} ItemsEnd(w: World, element: string, items: seq<Document>, rank: Uuid -> nat, depth: nat)
    requires Acyclic(w, rank) && Below(w, element, ItemReferences(items), rank, depth)
    ensures RenderItems(w, element, items, depth) != Endless
    decreases depth, 2, items, 0
  {
    if items != [] {
      RenderEnds(w, element, items[0], rank, depth);
      ItemsEnd(w, element, items[1..], rank, depth);
    }
  }

  lemma {:induction false} FieldsEnd(w: World, element: string, fields: seq<Field>, rank: Uuid -> nat, depth: nat)
    requires Acyclic(w, rank) && Below(w, element, FieldReferences(fields), rank, depth)
    ensures RenderFields(w, element, fields, depth) != Endless
    decreases depth, 2, fields, 0
  {
    if fields != [] {
      RenderEnds(w, element, fields[0].value, rank, depth);
      FieldsEnd(w, element, fields[1..], rank, depth);
    }
  }

  /** Where references are acyclic every target state is rendered, or fails, within a depth
      equal to its rank. */
  lemma {:induction false} StateEnds(w: World, u: Uuid, rank: Uuid -> nat, depth: nat)
    requires Acyclic(w, rank) && u in w.resources && rank(u) <= depth
    ensures RenderState(w, u, depth) != Endless
    decreases depth, 3, 0
  {
    FieldsEnd(w, w.resources[u].element, w.resources[u].value, rank, depth);
  }

  // ---- Only acyclic references render ----

  /** Every target state these references read is rendered within the depth. */
  ghost predicate ReadsDone(w: World, element: string, links: set<string>, depth: nat) {
    forall t | t in links && Reads(w, element, t).Some? ::
      depth > 0 && RenderState(w, Reads(w, element, t).value, depth - 1).Done?
  }

  lemma {:induction false} PiecesRead(w: World, element: string, pieces: seq<Piece>, depth: nat)
    requires RenderPieces(w, element, pieces, depth).Done?
    ensures ReadsDone(w, element, Holes(pieces), depth)
  {
    if pieces != [] {
      PiecesRead(w, element, pieces[1..], depth);
    }
  }

  lemma {:induction false} RenderReads(w: World, element: string, d: Document, depth: nat)
    requires Render(w, element, d, depth).Done?
    ensures ReadsDone(w, element, References(d), depth)
    decreases d, 1
  {
    match d
    case Atom(_) =>
    case Text(s) =>
      if IsTemplate(s) {
        PiecesRead(w, element, TemplatePieces(s), depth);
      }
    case List(items) => ItemsRead(w, element, items, depth);
    case Dict(fields) => FieldsRead(w, element, fields, depth);
  }

  lemma {:induction false} ItemsRead(w: World, element: string, items: seq<Document>, depth: nat)
    requires RenderItems(w, element, items, depth).Done?
    ensures ReadsDone(w, element, ItemReferences(items), depth)
    decreases items, 0
  {
    if items != [] {
      RenderReads(w, element, items[0], depth);
      ItemsRead(w, element, items[1..], depth);
    }
  }

  lemma {:induction false} FieldsRead(w: World, element: string, fields: seq<Field>, depth: nat)
    requires RenderFields(w, element, fields, depth).Done?
    ensures ReadsDone(w, element, FieldReferences(fields), depth)
    decreases fields, 0
  {
    if fields != [] {
      RenderReads(w, element, fields[0].value, depth);
      FieldsRead(w, element, fields[1..], depth);
    }
  }

  /** The least depth, up to `depth`, at which a target state is rendered. */
  ghost function LeastDepth(w: World, u: Uuid, depth: nat): (r: nat)
    ensures u in w.resources && RenderState(w, u, depth).Done? ==> r <= depth && RenderState(w, u, r).Done?
    ensures u in w.resources && RenderState(w, u, depth).Done? && r > 0 ==> !RenderState(w, u, r - 1).Done?
  {
    if u !in w.resources || depth == 0 || !RenderState(w, u, depth - 1).Done? then depth else LeastDepth(w, u, depth - 1)
  }

  lemma LeastIsLeast(w: World, u: Uuid, depth: nat, d: nat)
    requires u in w.resources && RenderState(w, u, depth).Done? && RenderState(w, u, d).Done?
    ensures LeastDepth(w, u, depth) <= d
  {
    var least := LeastDepth(w, u, depth);
    if d < least {
      DepthDoesNotMatter(w, u, d, least - 1);
    }
  }

  ghost function Depths(w: World, depth: nat): Uuid -> nat {
    u => LeastDepth(w, u, depth)
  }

  /** If every target state is rendered, the depths are an order of the references. */
  lemma RenderedIsAcyclic(w: World, depth: nat)
    requires forall u | u in w.resources :: RenderState(w, u, depth).Done?
    ensures Acyclic(w, Depths(w, depth))
  {
    var rank := Depths(w, depth);
    forall u | u in w.resources
      ensures Below(w, w.resources[u].element, FieldReferences(w.resources[u].value), rank, rank(u))
    {
      var r, least := w.resources[u], LeastDepth(w, u, depth);
      FieldsRead(w, r.element, r.value, least);
      forall t | t in FieldReferences(r.value) && Reads(w, r.element, t).Some?
        ensures rank(Reads(w, r.element, t).value) < least
      {
        LeastIsLeast(w, Reads(w, r.element, t).value, depth, least - 1);
      }
    }
  }

  ghost predicate AllRendered(w: World, depth: nat) {
    forall u | u in w.resources :: RenderState(w, u, depth).Done?
  }

  ghost predicate NeverFails(w: World) {
    forall u, depth: nat | u in w.resources :: RenderState(w, u, depth) != Failed
  }

  ghost predicate HasOrder(w: World) {
    exists rank: Uuid -> nat :: Acyclic(w, rank)
  }

  lemma {:induction false} BoundedRank(us: set<Uuid>, rank: Uuid -> nat) returns (bound: nat)
    ensures forall u | u in us :: rank(u) <= bound
  {
    bound := 0;
    if us != {} {
      var u :| u in us;
      bound := BoundedRank(us - {u}, rank);
      if bound < rank(u) {
        bound := rank(u);
      }
    }
  }

  /** Where no reference fails, all target states are rendered at some depth exactly when
      the references between resources without an actual state are acyclic. */
  lemma RendersIffAcyclic(w: World)
    requires NeverFails(w)
    ensures (exists depth: nat :: AllRendered(w, depth)) <==> HasOrder(w)
  {
    if depth: nat :| AllRendered(w, depth) {
      RenderedIsAcyclic(w, depth);
    }
    if HasOrder(w) {
      var rank: Uuid -> nat :| Acyclic(w, rank);
      var bound := BoundedRank(w.resources.Keys, rank);
      forall u | u in w.resources
        ensures RenderState(w, u, bound).Done?
      {
        StateEnds(w, u, rank, bound);
      }
      assert AllRendered(w, bound);
    }
  }

  /** Resources each of which reads the next. */
  ghost predicate Chain(w: World, us: seq<Uuid>) {
    && (forall u | u in us :: u in w.resources)
    && forall i | 0 <= i < |us| - 1 :: ReadBy(w, us[i], us[i + 1])
  }

  ghost predicate ReadBy(w: World, u: Uuid, v: Uuid)
    requires u in w.resources
  {
    exists t :: t in FieldReferences(w.resources[u].value) && Reads(w, w.resources[u].element, t) == Some(v)
  }

  /** The end of a chain is rendered at a smaller depth. */
  lemma {:induction false} ChainDescends(w: World, us: seq<Uuid>, depth: nat)
    requires us != [] && Chain(w, us) && RenderState(w, us[0], depth).Done?
    ensures |us| - 1 <= depth && RenderState(w, us[|us| - 1], depth - (|us| - 1)).Done?
  {
    if |us| > 1 {
      var r := w.resources[us[0]];
      FieldsRead(w, r.element, r.value, depth);
      assert ReadBy(w, us[0], us[1]);
      forall i | 0 <= i < |us[1..]| - 1
        ensures ReadBy(w, us[1..][i], us[1..][i + 1])
      {
        assert ReadBy(w, us[i + 1], us[i + 2]);
      }
      ChainDescends(w, us[1..], depth - 1);
    }
  }

  /** A resource that reads itself, directly or through others, is never rendered. */
  lemma {:induction false} CycleNeverRenders(w: World, us: seq<Uuid>, depth: nat)
    requires |us| > 1 && Chain(w, us) && us[0] == us[|us| - 1]
    ensures !RenderState(w, us[0], depth).Done?
    decreases depth
  {
    if RenderState(w, us[0], depth).Done? {
      ChainDescends(w, us, depth);
      CycleNeverRenders(w, us, depth - (|us| - 1));
    }
  }
}
