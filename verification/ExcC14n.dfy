/**
  Exclusive XML canonicalization (xmldsig.rs). `Canonical` decides what is
  rendered, `Serialize` spells it out, and the method `WriteNode` is the source's
  single recursive writer, proved to produce exactly `Serialize(Canonical(...))`.
 */
module ExcC14n {
  import opened Options
  import opened StringOrder
  import StableSort
  import opened XmlTree

  /** Serialized siblings in first-child / next-sibling form; `E` heads elements. */
  datatype Content<E> =
    | End
    | Run(text: string, next: Content<E>)
    | Pi(target: string, value: Option<string>, next: Content<E>)
    | Elem(head: E, children: Content<E>, next: Content<E>)

  /** One `name="value"` of a start tag, either a declaration or an attribute. */
  datatype Field = Field(name: string, value: string)

  datatype Tag = Tag(name: string, fields: seq<Field>)

  // --------------------------------------------------------------- sorting

  /** What the writer sorts: `major` then `minor` order it, `name` and `value` are printed. */
  datatype Line = Line(major: string, minor: string, name: string, value: string)

  predicate LineLe(a: Line, b: Line) {
    if a.major == b.major then StringLe(a.minor, b.minor) else StringLe(a.major, b.major)
  }

  /** Declarations and attributes are sorted alike, by different keys. */
  function Sort(lines: seq<Line>): seq<Line> {
    StableSort.Sort(lines, LineLe)
  }

  function Fields(lines: seq<Line>): (fields: seq<Field>)
    ensures |fields| == |lines|
    ensures forall i :: 0 <= i < |lines| ==> fields[i] == Field(lines[i].name, lines[i].value)
  {
    seq(|lines|, i requires 0 <= i < |lines| => Field(lines[i].name, lines[i].value))
  }

  // ------------------------------------------------ namespace declarations

  type RenderedNs = map<Option<string>, string>

  /** The scope the children will inherit and the declarations rendered so far. */
  datatype Rendering = Rendering(scope: RenderedNs, declarations: seq<Line>)

  function Bound(scope: RenderedNs, prefix: Option<string>): string {
    if prefix in scope then scope[prefix] else ""
  }

  function Declaration(prefix: Option<string>, uri: string): Line {
    match prefix
    case None => Line("", uri, "xmlns", uri)
    case Some(p) => Line(p, uri, if p == "" then "xmlns" else "xmlns:" + p, uri)
  }

  /** The closure `consider`: render one prefix unless the output already binds it so. */
  function Consider(r: Rendering, ns: seq<Namespace>, prefix: Option<string>): Rendering {
    if prefix == Some("xml") || prefix == Some("xmlns") then r
    else
      var uri := LookupUri(ns, prefix).GetOr("");
      if prefix.None? && uri == "" then
        if Bound(r.scope, None) != "" then
          Rendering(r.scope[None := ""], r.declarations + [Declaration(None, "")])
        else r
      else if uri == "" then r
      else if prefix in r.scope && r.scope[prefix] == uri then r
      else Rendering(r.scope[prefix := uri], r.declarations + [Declaration(prefix, uri)])
  }

  function ConsiderAll(r: Rendering, ns: seq<Namespace>, prefixes: seq<Option<string>>): Rendering
    decreases prefixes
  {
    if prefixes == [] then r
    else ConsiderAll(Consider(r, ns, prefixes[0]), ns, prefixes[1..])
  }

  /** Prefixes found for the namespaced attributes, in attribute order. */
  function AttributePrefixes(attributes: seq<Attribute>, ns: seq<Namespace>): seq<Option<string>> {
    if attributes == [] then []
    else
      (if attributes[0].namespace.Some? && LookupPrefix(ns, attributes[0].namespace.value).Some?
       then [LookupPrefix(ns, attributes[0].namespace.value)] else [])
      + AttributePrefixes(attributes[1..], ns)
  }

  function Inclusive(inclusive: seq<string>): (ps: seq<Option<string>>)
    ensures |ps| == |inclusive| && forall i :: 0 <= i < |ps| ==> ps[i] == Some(inclusive[i])
  {
    seq(|inclusive|, i requires 0 <= i < |inclusive| => Some(inclusive[i]))
  }

  /** Every prefix an element considers: its own, its attributes', the PrefixList. */
  function Considered(qname: string, attributes: seq<Attribute>, ns: seq<Namespace>, inclusive: seq<string>)
    : seq<Option<string>>
  {
    [Prefix(qname)] + AttributePrefixes(attributes, ns) + Inclusive(inclusive)
  }

  // ------------------------------------------------------------ attributes

  function AttributeQName(a: Attribute, ns: seq<Namespace>): string {
    match a.namespace
    case None => a.name
    case Some(uri) =>
      if uri == XML_NAMESPACE then "xml:" + a.name
      else match LookupPrefix(ns, uri)
           case Some(p) => p + ":" + a.name
           case None => a.name
  }

  function AttributeLine(a: Attribute, ns: seq<Namespace>): Line {
    Line(a.namespace.GetOr(""), a.name, AttributeQName(a, ns), a.value)
  }

  function AttributeLines(attributes: seq<Attribute>, ns: seq<Namespace>): (lines: seq<Line>)
    ensures |lines| == |attributes|
    ensures forall i :: 0 <= i < |lines| ==> lines[i] == AttributeLine(attributes[i], ns)
  {
    seq(|attributes|, i requires 0 <= i < |attributes| => AttributeLine(attributes[i], ns))
  }

  // ------------------------------------------------------- canonical form

  function Rendered(qname: string, attributes: seq<Attribute>, ns: seq<Namespace>,
                    inclusive: seq<string>, rendered: RenderedNs): Rendering
  {
    ConsiderAll(Rendering(rendered, []), ns, Considered(qname, attributes, ns, inclusive))
  }

  function TagOf(qname: string, attributes: seq<Attribute>, ns: seq<Namespace>, declarations: seq<Line>): Tag {
    Tag(qname, Fields(Sort(declarations)) + Fields(Sort(AttributeLines(attributes, ns))))
  }

  /**
    The canonical form of sibling nodes whose ancestors put `outer` in scope in
    the source and `rendered` in scope in the output.
   */
  function Canonical(nodes: seq<Node>, exclude: Option<nat>, inclusive: seq<string>,
                     outer: seq<Namespace>, rendered: RenderedNs): Content<Tag>
  {
    if nodes == [] then End
    else
      var next := Canonical(nodes[1..], exclude, inclusive, outer, rendered);
      if Some(nodes[0].id) == exclude then next
      else match nodes[0]
           case Text(_, text) => Run(text, next)
           case Instruction(_, target, value) => Pi(target, value, next)
           case Comment(_) => next
           case Element(_, qname, own, attributes, children) =>
             var ns := InScope(own, outer);
             var r := Rendered(qname, attributes, ns, inclusive, rendered);
             Elem(TagOf(qname, attributes, ns, r.declarations),
                  Canonical(children, exclude, inclusive, ns, r.scope),
                  next)
  }

  // ---------------------------------------------------------- serialization

  function EscapeTextChar(c: char): string {
    match c
    case '&' => "&amp;"
    case '<' => "&lt;"
    case '>' => "&gt;"
    case '\r' => "&#xD;"
    case _ => [c]
  }

  function EscapeAttributeChar(c: char): string {
    match c
    case '&' => "&amp;"
    case '<' => "&lt;"
    case '"' => "&quot;"
    case '\t' => "&#x9;"
    case '\n' => "&#xA;"
    case '\r' => "&#xD;"
    case _ => [c]
  }

  function EscapeText(s: string): string {
    if s == "" then "" else EscapeTextChar(s[0]) + EscapeText(s[1..])
  }

  function EscapeAttribute(s: string): string {
    if s == "" then "" else EscapeAttributeChar(s[0]) + EscapeAttribute(s[1..])
  }

  function SerializeFields(fields: seq<Field>): string {
    if fields == [] then ""
    else " " + fields[0].name + "=\"" + EscapeAttribute(fields[0].value) + "\"" + SerializeFields(fields[1..])
  }

  function SerializePi(target: string, value: Option<string>): string {
    "<?" + target + (if value.Some? then " " + value.value else "") + "?>"
  }

  function Serialize(c: Content<Tag>): string {
    match c
    case End => ""
    case Run(text, next) => EscapeText(text) + Serialize(next)
    case Pi(target, value, next) => SerializePi(target, value) + Serialize(next)
    case Elem(tag, children, next) =>
      "<" + tag.name + SerializeFields(tag.fields) + ">" + Serialize(children)
      + "</" + tag.name + ">" + Serialize(next)
  }

  /** The canonical string of one element whose ancestors put `outer` in scope. */
  function CanonicalString(element: Node, exclude: Option<nat>, inclusive: seq<string>, outer: seq<Namespace>): string {
    Serialize(Canonical([element], exclude, inclusive, outer, map[]))
  }
}
