/** The writer as the source runs it: appending to `out`, one node at a time. */
module ExcC14nWriter {
  import opened Options
  import opened XmlTree
  import opened ExcC14n
  import opened Sequences

  method WriteText(out: string, text: string) returns (written: string)
    ensures written == out + EscapeText(text)
  {
    written := out;
    for i := 0 to |text|
      invariant written + EscapeText(text[i..]) == out + EscapeText(text)
    {
      assert text[i..][1..] == text[i + 1..];
      assert written + EscapeText(text[i..]) == written + EscapeTextChar(text[i]) + EscapeText(text[i + 1..]);
      written := written + EscapeTextChar(text[i]);
    }
    assert text[|text|..] == "";
  }

  method WriteAttributeValue(out: string, value: string) returns (written: string)
    ensures written == out + EscapeAttribute(value)
  {
    written := out;
    for i := 0 to |value|
      invariant written + EscapeAttribute(value[i..]) == out + EscapeAttribute(value)
    {
      assert value[i..][1..] == value[i + 1..];
      assert written + EscapeAttribute(value[i..])
          == written + EscapeAttributeChar(value[i]) + EscapeAttribute(value[i + 1..]);
      written := written + EscapeAttributeChar(value[i]);
    }
    assert value[|value|..] == "";
  }

  method WriteFields(out: string, fields: seq<Field>) returns (written: string)
    ensures written == out + SerializeFields(fields)
  {
    written := out;
    for i := 0 to |fields|
      invariant written + SerializeFields(fields[i..]) == out + SerializeFields(fields)
    {
      var field := fields[i];
      ghost var before := written;
      written := written + " " + field.name + "=\"";
      written := WriteAttributeValue(written, field.value);
      written := written + "\"";
      SerializeFieldsStep(before, fields[i..]);
      assert fields[i..][1..] == fields[i + 1..];
    }
    assert fields[|fields|..] == [];
  }

  lemma SerializeFieldsStep(before: string, fields: seq<Field>)
    requires fields != []
    ensures before + SerializeFields(fields)
         == before + " " + fields[0].name + "=\"" + EscapeAttribute(fields[0].value) + "\""
           + SerializeFields(fields[1..])
  {
  }

  lemma ConsiderFirst(r: Rendering, ns: seq<Namespace>, p: Option<string>, rest: seq<Option<string>>,
                      all: seq<Option<string>>)
    requires all == [p] + rest
    ensures ConsiderAll(r, ns, all) == ConsiderAll(Consider(r, ns, p), ns, rest)
  {
    assert all[1..] == rest;
  }

  lemma AttributePrefixesStep(attributes: seq<Attribute>, i: nat, ns: seq<Namespace>, more: seq<Option<string>>)
    requires i < |attributes|
    ensures var uri := attributes[i].namespace;
            var found := if uri.Some? then LookupPrefix(ns, uri.value) else None;
            var rest := AttributePrefixes(attributes[i + 1..], ns) + more;
            AttributePrefixes(attributes[i..], ns) + more == if found.Some? then [found] + rest else rest
  {
    assert attributes[i..][1..] == attributes[i + 1..];
    var rest := AttributePrefixes(attributes[i + 1..], ns);
    var prefix := LookupPrefix(ns, attributes[i].namespace.GetOr(""));
    Assoc([prefix], rest, more);
    EmptyLeft(rest);
  }

  /** The pass of `consider` over the attributes. */
  method RenderAttributePrefixes(before: Rendering, attributes: seq<Attribute>, ns: seq<Namespace>,
                                 ghost more: seq<Option<string>>)
    returns (r: Rendering)
    ensures ConsiderAll(r, ns, more) == ConsiderAll(before, ns, AttributePrefixes(attributes, ns) + more)
  {
    r := before;
    assert attributes[0..] == attributes;
    for i := 0 to |attributes|
      invariant ConsiderAll(r, ns, AttributePrefixes(attributes[i..], ns) + more)
             == ConsiderAll(before, ns, AttributePrefixes(attributes, ns) + more)
    {
      AttributePrefixesStep(attributes, i, ns, more);
      if attributes[i].namespace.Some? {
        var prefix := LookupPrefix(ns, attributes[i].namespace.value);
        if prefix.Some? {
          ConsiderFirst(r, ns, prefix, AttributePrefixes(attributes[i + 1..], ns) + more,
                        AttributePrefixes(attributes[i..], ns) + more);
          r := Consider(r, ns, prefix);
        }
      }
    }
    EmptyLeft(more);
  }

  /** The pass of `consider` over the PrefixList. */
  method RenderInclusive(before: Rendering, inclusive: seq<string>, ns: seq<Namespace>) returns (r: Rendering)
    ensures r == ConsiderAll(before, ns, Inclusive(inclusive))
  {
    r := before;
    assert inclusive[0..] == inclusive;
    for i := 0 to |inclusive|
      invariant ConsiderAll(r, ns, Inclusive(inclusive[i..])) == ConsiderAll(before, ns, Inclusive(inclusive))
    {
      ConsiderFirst(r, ns, Some(inclusive[i]), Inclusive(inclusive[i + 1..]), Inclusive(inclusive[i..]));
      r := Consider(r, ns, Some(inclusive[i]));
    }
  }

  /** The three passes of `consider` over one element. */
  method RenderDeclarations(qname: string, attributes: seq<Attribute>, ns: seq<Namespace>,
                            inclusive: seq<string>, rendered: RenderedNs)
    returns (r: Rendering)
    ensures r == Rendered(qname, attributes, ns, inclusive, rendered)
  {
    r := Consider(Rendering(rendered, []), ns, Prefix(qname));
    ghost var rest := AttributePrefixes(attributes, ns) + Inclusive(inclusive);
    Assoc([Prefix(qname)], AttributePrefixes(attributes, ns), Inclusive(inclusive));
    ConsiderFirst(Rendering(rendered, []), ns, Prefix(qname), rest, Considered(qname, attributes, ns, inclusive));
    r := RenderAttributePrefixes(r, attributes, ns, Inclusive(inclusive));
    r := RenderInclusive(r, inclusive, ns);
  }

  /** What `write_node` appends for one node. */
  function NodeString(node: Node, exclude: Option<nat>, inclusive: seq<string>,
                      outer: seq<Namespace>, rendered: RenderedNs): string
  {
    Serialize(Canonical([node], exclude, inclusive, outer, rendered))
  }

  /** `write_node`: appends one node to `out`. */
  method WriteNode(out: string, node: Node, exclude: Option<nat>, inclusive: seq<string>,
                   outer: seq<Namespace>, rendered: RenderedNs)
    returns (written: string)
    ensures written == out + NodeString(node, exclude, inclusive, outer, rendered)
    decreases node
  {
    LeafString(node, exclude, inclusive, outer, rendered);
    if Some(node.id) == exclude {
      return out;
    }
    match node {
      case Text(_, text) =>
        written := WriteText(out, text);
      case Instruction(_, target, value) =>
        written := out + "<?" + target;
        if value.Some? {
          written := written + " " + value.value;
        }
        written := written + "?>";
      case Comment(_) =>
        written := out;
      case Element(_, _, _, _, _) =>
        written := WriteElement(out, node, exclude, inclusive, outer, rendered);
    }
  }

  method WriteElement(out: string, node: Node, exclude: Option<nat>, inclusive: seq<string>,
                      outer: seq<Namespace>, rendered: RenderedNs)
    returns (written: string)
    requires node.Element? && Some(node.id) != exclude
    ensures written == out + NodeString(node, exclude, inclusive, outer, rendered)
    decreases node, 1
  {
    var ns := InScope(node.own, outer);
    var r := RenderDeclarations(node.qname, node.attributes, ns, inclusive, rendered);
    var tag := TagOf(node.qname, node.attributes, ns, r.declarations);
    written := out + "<" + node.qname;
    written := WriteFields(written, tag.fields);
    written := written + ">";
    written := WriteChildren(written, node, exclude, inclusive, ns, r.scope);
    written := written + "</" + node.qname + ">";
    ElementString(node, exclude, inclusive, outer, rendered);
    Joined(out, node.qname, SerializeFields(tag.fields),
           Serialize(Canonical(node.children, exclude, inclusive, ns, r.scope)));
  }

  /** The loop over `node.children()`. */
  method WriteChildren(out: string, parent: Node, exclude: Option<nat>, inclusive: seq<string>,
                       ns: seq<Namespace>, rendered: RenderedNs)
    returns (written: string)
    requires parent.Element?
    ensures written == out + Serialize(Canonical(parent.children, exclude, inclusive, ns, rendered))
    decreases parent, 0
  {
    written := out;
    var i := 0;
    while i < |parent.children|
      invariant i <= |parent.children|
      invariant written + Serialize(Canonical(parent.children[i..], exclude, inclusive, ns, rendered))
             == out + Serialize(Canonical(parent.children, exclude, inclusive, ns, rendered))
    {
      SplitFirst(written, parent.children, i, exclude, inclusive, ns, rendered);
      written := WriteNode(written, parent.children[i], exclude, inclusive, ns, rendered);
      i := i + 1;
    }
  }

  lemma LeafString(node: Node, exclude: Option<nat>, inclusive: seq<string>,
                   outer: seq<Namespace>, rendered: RenderedNs)
    ensures Some(node.id) == exclude ==> NodeString(node, exclude, inclusive, outer, rendered) == ""
    ensures Some(node.id) != exclude ==>
              match node
              case Text(_, text) => NodeString(node, exclude, inclusive, outer, rendered) == EscapeText(text)
              case Instruction(_, target, value) =>
                NodeString(node, exclude, inclusive, outer, rendered) == SerializePi(target, value)
              case Comment(_) => NodeString(node, exclude, inclusive, outer, rendered) == ""
              case Element(_, _, _, _, _) => true
  {
    assert Canonical([node][1..], exclude, inclusive, outer, rendered) == End;
    match node
    case Text(_, text) => Alone(EscapeText(text));
    case Instruction(_, target, value) => Alone(SerializePi(target, value));
    case _ =>
  }

  lemma Alone(s: string)
    ensures s + Serialize(End) == s
  {
  }

  lemma ElementString(node: Node, exclude: Option<nat>, inclusive: seq<string>,
                      outer: seq<Namespace>, rendered: RenderedNs)
    requires node.Element? && Some(node.id) != exclude
    ensures var ns := InScope(node.own, outer);
            var r := Rendered(node.qname, node.attributes, ns, inclusive, rendered);
            NodeString(node, exclude, inclusive, outer, rendered)
            == "<" + node.qname + SerializeFields(TagOf(node.qname, node.attributes, ns, r.declarations).fields) + ">"
               + Serialize(Canonical(node.children, exclude, inclusive, ns, r.scope)) + "</" + node.qname + ">"
  {
    assert Canonical([node][1..], exclude, inclusive, outer, rendered) == End;
    var ns := InScope(node.own, outer);
    var r := Rendered(node.qname, node.attributes, ns, inclusive, rendered);
    ElementAlone(TagOf(node.qname, node.attributes, ns, r.declarations),
                 Canonical(node.children, exclude, inclusive, ns, r.scope));
  }

  lemma ElementAlone(tag: Tag, children: Content<Tag>)
    ensures Serialize(Elem(tag, children, End))
         == "<" + tag.name + SerializeFields(tag.fields) + ">" + Serialize(children) + "</" + tag.name + ">"
  {
    Alone("<" + tag.name + SerializeFields(tag.fields) + ">" + Serialize(children) + "</" + tag.name + ">");
  }

  lemma Joined(out: string, name: string, fields: string, inner: string)
    ensures out + ("<" + name + fields + ">" + inner + "</" + name + ">")
         == out + "<" + name + fields + ">" + inner + "</" + name + ">"
  {
  }

  /** At most one node, followed by others. */
  function Before(one: Content<Tag>, next: Content<Tag>): Content<Tag> {
    if one.End? then next else one.(next := next)
  }

  lemma SerializeBefore(one: Content<Tag>, next: Content<Tag>)
    requires one.End? || one.next == End
    ensures Serialize(Before(one, next)) == Serialize(one) + Serialize(next)
  {
    match one
    case End => EmptyLeft(Serialize(next));
    case Run(text, _) => Alone(EscapeText(text));
    case Pi(target, value, _) => Alone(SerializePi(target, value));
    case Elem(tag, children, _) =>
      Alone("<" + tag.name + SerializeFields(tag.fields) + ">" + Serialize(children) + "</" + tag.name + ">");
  }

  lemma CanonicalBefore(nodes: seq<Node>, exclude: Option<nat>, inclusive: seq<string>,
                        outer: seq<Namespace>, rendered: RenderedNs)
    requires nodes != []
    ensures var one := Canonical([nodes[0]], exclude, inclusive, outer, rendered);
            && (one.End? || one.next == End)
            && Canonical(nodes, exclude, inclusive, outer, rendered)
               == Before(one, Canonical(nodes[1..], exclude, inclusive, outer, rendered))
  {
    assert Canonical([nodes[0]][1..], exclude, inclusive, outer, rendered) == End;
  }

  /** The first node's string comes first. */
  lemma HeadString(nodes: seq<Node>, exclude: Option<nat>, inclusive: seq<string>,
                   outer: seq<Namespace>, rendered: RenderedNs)
    requires nodes != []
    ensures Serialize(Canonical(nodes, exclude, inclusive, outer, rendered))
         == NodeString(nodes[0], exclude, inclusive, outer, rendered)
            + Serialize(Canonical(nodes[1..], exclude, inclusive, outer, rendered))
  {
    CanonicalBefore(nodes, exclude, inclusive, outer, rendered);
    SerializeBefore(Canonical([nodes[0]], exclude, inclusive, outer, rendered),
                    Canonical(nodes[1..], exclude, inclusive, outer, rendered));
  }

  lemma SplitFirst(before: string, nodes: seq<Node>, i: nat, exclude: Option<nat>, inclusive: seq<string>,
                   outer: seq<Namespace>, rendered: RenderedNs)
    requires i < |nodes|
    ensures before + Serialize(Canonical(nodes[i..], exclude, inclusive, outer, rendered))
         == before + NodeString(nodes[i], exclude, inclusive, outer, rendered)
            + Serialize(Canonical(nodes[i + 1..], exclude, inclusive, outer, rendered))
  {
    assert nodes[i..][1..] == nodes[i + 1..];
    HeadString(nodes[i..], exclude, inclusive, outer, rendered);
    Assoc(before, NodeString(nodes[i], exclude, inclusive, outer, rendered),
          Serialize(Canonical(nodes[i + 1..], exclude, inclusive, outer, rendered)));
  }

  /** `canonicalize`. */
  method Canonicalize(element: Node, exclude: Option<nat>, inclusive: seq<string>, outer: seq<Namespace>)
    returns (out: string)
    ensures out == CanonicalString(element, exclude, inclusive, outer)
  {
    out := WriteNode("", element, exclude, inclusive, outer, map[]);
  }
}
