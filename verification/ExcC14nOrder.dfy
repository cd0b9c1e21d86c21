/**
  The spelling rules of the canonical form, stated without the functions that
  print it: what is escaped, which prefixes are declared, and in which order
  declarations and attributes stand on every tag (sections 2.3 and 3 of Canonical
  XML and Exclusive XML Canonicalization).
 */
module ExcC14nOrder {
  import opened Options
  import opened StringOrder
  import opened XmlTree
  import opened ExcC14n
  import opened ExcC14nSorting
  import opened ExcC14nNamespaces
  import opened ExcC14nFidelity
  import StableSort

  // -------------------------------------------------------------- escaping

  /** Exactly these characters are replaced in text and in attribute values, by these references. */
  lemma EscapedExactly(c: char)
    ensures EscapeTextChar(c) == [c] <==> c !in {'&', '<', '>', '\r'}
    ensures EscapeAttributeChar(c) == [c] <==> c !in {'&', '<', '"', '\t', '\n', '\r'}
    ensures c in References && EscapeTextChar(c) != [c] ==> EscapeTextChar(c) == References[c]
    ensures c in References && EscapeAttributeChar(c) != [c] ==> EscapeAttributeChar(c) == References[c]
    ensures c !in References ==> EscapeTextChar(c) == EscapeAttributeChar(c) == [c]
  {
  }

  /** The references of Canonical XML. */
  const References: map<char, string> := map[
    '&' := "&amp;", '<' := "&lt;", '>' := "&gt;", '"' := "&quot;", '\t' := "&#x9;", '\n' := "&#xA;", '\r' := "&#xD;"
  ]

  /** No replaced character is left in escaped text, except the `&` that starts a reference. */
  lemma {:induction false} NoRawText(s: string)
    ensures forall c <- EscapeText(s) :: c !in {'<', '>', '\r'}
  {
    if s != "" {
      NoRawText(s[1..]);
    }
  }

  lemma {:induction false} NoRawAttribute(s: string)
    ensures forall c <- EscapeAttribute(s) :: c !in {'<', '"', '\t', '\n', '\r'}
  {
    if s != "" {
      NoRawAttribute(s[1..]);
    }
  }

  // --------------------------------------------------- prefixes considered

  /** A prefix in use on an element: its own, that of a namespaced attribute, or one of the PrefixList. */
  predicate Used(qname: string, attributes: seq<Attribute>, ns: seq<Namespace>, inclusive: seq<string>,
                 p: Option<string>) {
    || p == Prefix(qname)
    || (p.Some? && exists a <- attributes :: a.namespace.Some? && LookupPrefix(ns, a.namespace.value) == p)
    || (p.Some? && p.value in inclusive)
  }

  lemma {:induction false} AttributePrefixesUsed(attributes: seq<Attribute>, ns: seq<Namespace>, p: Option<string>)
    ensures p in AttributePrefixes(attributes, ns) <==>
            p.Some? && exists a <- attributes :: a.namespace.Some? && LookupPrefix(ns, a.namespace.value) == p
  {
    if attributes != [] {
      AttributePrefixesUsed(attributes[1..], ns, p);
      assert attributes == [attributes[0]] + attributes[1..];
    }
  }

  lemma ConsideredUsed(qname: string, attributes: seq<Attribute>, ns: seq<Namespace>, inclusive: seq<string>,
                       p: Option<string>)
    ensures p in Considered(qname, attributes, ns, inclusive) <==> Used(qname, attributes, ns, inclusive, p)
  {
    AttributePrefixesUsed(attributes, ns, p);
    InclusiveUsed(inclusive, p);
  }

  lemma InclusiveUsed(inclusive: seq<string>, p: Option<string>)
    ensures p in Inclusive(inclusive) <==> p.Some? && p.value in inclusive
  {
    if p.Some? && p.value in inclusive {
      var i :| 0 <= i < |inclusive| && inclusive[i] == p.value;
      assert Inclusive(inclusive)[i] == p;
    }
  }

  /**
    An element declares exactly the prefixes in use on it, other than `xml` and
    `xmlns`, whose binding differs from the one inherited in the output; a prefix
    without a binding is never declared, the missing default is undeclared.
   */
  lemma DeclaredExactly(qname: string, attributes: seq<Attribute>, ns: seq<Namespace>, inclusive: seq<string>,
                        rendered: RenderedNs, l: Line)
    requires ValidScope(ns)
    ensures l in Rendered(qname, attributes, ns, inclusive, rendered).declarations <==>
            exists p :: && Used(qname, attributes, ns, inclusive, p) && p != Some("xml") && p != Some("xmlns")
                        && (p.Some? ==> LookupUri(ns, p).Some?)
                        && LookupUri(ns, p).GetOr("") != Bound(rendered, p)
                        && l == Declaration(p, LookupUri(ns, p).GetOr(""))
  {
    var ps := Considered(qname, attributes, ns, inclusive);
    ConsiderAllEffect(Rendering(rendered, []), ns, ps);
    if l in Rendered(qname, attributes, ns, inclusive, rendered).declarations {
      assert CalledFor(l, rendered, ns, ps);
      var p :| p in ps && Renderable(ns, p) && Bound(rendered, p) != Uri(ns, p) && l == Declaration(p, Uri(ns, p));
      ConsideredUsed(qname, attributes, ns, inclusive, p);
    }
    if p :| && Used(qname, attributes, ns, inclusive, p) && p != Some("xml") && p != Some("xmlns")
            && (p.Some? ==> LookupUri(ns, p).Some?) && LookupUri(ns, p).GetOr("") != Bound(rendered, p)
            && l == Declaration(p, LookupUri(ns, p).GetOr(""))
    {
      ConsideredUsed(qname, attributes, ns, inclusive, p);
      BoundRenderable(ns, p);
      assert CalledFor(l, rendered, ns, ps);
    }
  }

  lemma BoundRenderable(ns: seq<Namespace>, p: Option<string>)
    requires ValidScope(ns) && p != Some("xml") && p != Some("xmlns") && (p.Some? ==> LookupUri(ns, p).Some?)
    ensures Renderable(ns, p)
  {
    LookupUriMember(ns, p);
  }

  // ----------------------------------------------------------------- order

  /** Order of two keys, the first deciding. */
  predicate KeyLe(a: (string, string), b: (string, string)) {
    if a.0 == b.0 then StringLe(a.1, b.1) else StringLe(a.0, b.0)
  }

  /** A declaration's prefix, empty for the default one. */
  function PrefixText(f: Field): string
    requires IsDeclaration(f)
  {
    DeclaredPrefix(f).GetOr("")
  }

  function AttributeKey(a: Attribute): (string, string) {
    (a.namespace.GetOr(""), a.name)
  }

  /**
    `fields` starts with `n` declarations in the order of their prefixes, and goes on
    with the attributes in the order of namespace URI and local name.
   */
  predicate InOrder(fields: seq<Field>, attributes: seq<Attribute>, ns: seq<Namespace>, n: nat,
                    ordered: seq<Attribute>) {
    && |fields| == n + |ordered| && multiset(ordered) == multiset(attributes)
    && (forall i :: 0 <= i < n ==> IsDeclaration(fields[i]))
    && (forall i, j :: 0 <= i < j < n ==> StringLe(PrefixText(fields[i]), PrefixText(fields[j])))
    && (forall k :: 0 <= k < |ordered| ==> fields[n + k] == Field(AttributeQName(ordered[k], ns), ordered[k].value))
    && (forall i, j :: 0 <= i < j < |ordered| ==> KeyLe(AttributeKey(ordered[i]), AttributeKey(ordered[j])))
  }

  ghost predicate Printed(fields: seq<Field>, attributes: seq<Attribute>, ns: seq<Namespace>) {
    exists n: nat, ordered: seq<Attribute> :: InOrder(fields, attributes, ns, n, ordered)
  }

  /** The sort puts keys in order, whatever it calls its own order. */
  lemma SortedKeys(lines: seq<Line>)
    ensures var sorted := Sort(lines);
            forall i, j :: 0 <= i < j < |sorted| ==>
              KeyLe((sorted[i].major, sorted[i].minor), (sorted[j].major, sorted[j].minor))
  {
    SortOrders(lines);
    var sorted := Sort(lines);
    forall i, j | 0 <= i < j < |sorted|
      ensures KeyLe((sorted[i].major, sorted[i].minor), (sorted[j].major, sorted[j].minor))
    {
      assert LineLe(sorted[i], sorted[j]);
    }
  }

  /** The attributes in the order their lines are printed. */
  function InLineOrder(lines: seq<Line>): seq<Attribute> {
    seq(|lines|, i requires 0 <= i < |lines| => OfLine(lines[i]))
  }

  lemma {:induction false} LineAttributesAre(lines: seq<Line>)
    ensures LineAttributes(lines) == multiset(InLineOrder(lines))
  {
    if lines != [] {
      LineAttributesAre(lines[1..]);
      assert InLineOrder(lines) == [OfLine(lines[0])] + InLineOrder(lines[1..]);
    }
  }

  lemma AttributesInOrder(attributes: seq<Attribute>, ns: seq<Namespace>)
    requires forall a <- attributes :: ValidAttribute(a)
    ensures var lines := Sort(AttributeLines(attributes, ns));
            InOrder(Fields(lines), attributes, ns, 0, InLineOrder(lines))
  {
    var lines := Sort(AttributeLines(attributes, ns));
    var ordered := InLineOrder(lines);
    LineAttributesSort(attributes, ns);
    LineAttributesAre(lines);
    SortedKeys(AttributeLines(attributes, ns));
    forall k | 0 <= k < |ordered|
      ensures Fields(lines)[k] == Field(AttributeQName(ordered[k], ns), ordered[k].value)
      ensures AttributeKey(ordered[k]) == (lines[k].major, lines[k].minor)
    {
      AttributeFields(attributes, ns, lines[k]);
      var a :| a in attributes && lines[k] == AttributeLine(a, ns);
      OfAttributeLine(a, ns);
    }
  }

  /** A declared line's sort key is the prefix a reader finds in it. */
  lemma DeclarationKey(l: Line, rendered: RenderedNs, ns: seq<Namespace>, ps: seq<Option<string>>)
    requires ValidScope(ns) && CalledFor(l, rendered, ns, ps)
    ensures IsDeclaration(Field(l.name, l.value)) && PrefixText(Field(l.name, l.value)) == l.major
  {
    var p :| p in ps && Renderable(ns, p) && Bound(rendered, p) != Uri(ns, p) && l == Declaration(p, Uri(ns, p));
    DeclarationRead(ns, p, Uri(ns, p));
  }

  lemma DeclarationsInOrder(qname: string, attributes: seq<Attribute>, ns: seq<Namespace>, inclusive: seq<string>,
                            rendered: RenderedNs)
    requires ValidScope(ns)
    ensures var fields := Fields(Sort(Rendered(qname, attributes, ns, inclusive, rendered).declarations));
            && (forall i :: 0 <= i < |fields| ==> IsDeclaration(fields[i]))
            && (forall i, j :: 0 <= i < j < |fields| ==> StringLe(PrefixText(fields[i]), PrefixText(fields[j])))
  {
    var ps := Considered(qname, attributes, ns, inclusive);
    var declarations := Rendered(qname, attributes, ns, inclusive, rendered).declarations;
    var lines := Sort(declarations);
    ConsiderAllEffect(Rendering(rendered, []), ns, ps);
    SortOrders(declarations);
    SortedKeys(declarations);
    forall i | 0 <= i < |lines|
      ensures IsDeclaration(Fields(lines)[i]) && PrefixText(Fields(lines)[i]) == lines[i].major
    {
      assert lines[i] in declarations;
      DeclarationKey(lines[i], rendered, ns, ps);
    }
    forall i, j | 0 <= i < j < |lines|
      ensures StringLe(lines[i].major, lines[j].major)
    {
      SameStringLe(lines[i].major);
    }
  }

  lemma {:induction false} SameStringLe(s: string)
    ensures StringLe(s, s)
  {
    if s != "" {
      SameStringLe(s[1..]);
    }
  }

  /** Every start tag: the name as written, then declarations by prefix, then attributes by URI and local name. */
  lemma TagInOrder(qname: string, attributes: seq<Attribute>, ns: seq<Namespace>, inclusive: seq<string>,
                   rendered: RenderedNs)
    requires ValidScope(ns) && forall a <- attributes :: ValidAttribute(a)
    ensures var tag := TagOf(qname, attributes, ns, Rendered(qname, attributes, ns, inclusive, rendered).declarations);
            tag.name == qname && Printed(tag.fields, attributes, ns)
  {
    var declared := Fields(Sort(Rendered(qname, attributes, ns, inclusive, rendered).declarations));
    var lines := Sort(AttributeLines(attributes, ns));
    DeclarationsInOrder(qname, attributes, ns, inclusive, rendered);
    AttributesInOrder(attributes, ns);
    OrderJoins(declared, Fields(lines), attributes, ns, InLineOrder(lines));
  }

  lemma OrderJoins(declared: seq<Field>, listed: seq<Field>, attributes: seq<Attribute>, ns: seq<Namespace>,
                   ordered: seq<Attribute>)
    requires forall i :: 0 <= i < |declared| ==> IsDeclaration(declared[i])
    requires forall i, j :: 0 <= i < j < |declared| ==> StringLe(PrefixText(declared[i]), PrefixText(declared[j]))
    requires InOrder(listed, attributes, ns, 0, ordered)
    ensures InOrder(declared + listed, attributes, ns, |declared|, ordered)
  {
    forall k | 0 <= k < |ordered|
      ensures (declared + listed)[|declared| + k] == Field(AttributeQName(ordered[k], ns), ordered[k].value)
    {
      assert listed[0 + k] == Field(AttributeQName(ordered[k], ns), ordered[k].value);
    }
  }

  /** The same for every element of a canonical form, at any depth. */
  ghost predicate TagsInOrder(nodes: seq<Node>, exclude: Option<nat>, outer: seq<Namespace>, c: Content<Tag>) {
    if nodes == [] then c == End
    else if Some(nodes[0].id) == exclude || nodes[0].Comment? then TagsInOrder(nodes[1..], exclude, outer, c)
    else match nodes[0]
         case Text(_, text) => c.Run? && c.text == text && TagsInOrder(nodes[1..], exclude, outer, c.next)
         case Instruction(_, _, _) => c.Pi? && TagsInOrder(nodes[1..], exclude, outer, c.next)
         case Element(_, qname, own, attributes, children) =>
           var ns := InScope(own, outer);
           && c.Elem? && c.head.name == qname && Printed(c.head.fields, attributes, ns)
           && TagsInOrder(children, exclude, ns, c.children) && TagsInOrder(nodes[1..], exclude, outer, c.next)
         case Comment(_) => true
  }

  lemma {:induction false} CanonicalInOrder(nodes: seq<Node>, exclude: Option<nat>, inclusive: seq<string>,
                                            outer: seq<Namespace>, rendered: RenderedNs)
    requires ValidScope(outer) && ValidNodes(nodes, outer)
    ensures TagsInOrder(nodes, exclude, outer, Canonical(nodes, exclude, inclusive, outer, rendered))
    decreases nodes
  {
    if nodes != [] {
      CanonicalInOrder(nodes[1..], exclude, inclusive, outer, rendered);
      if nodes[0].Element? && Some(nodes[0].id) != exclude {
        var Element(_, qname, own, attributes, children) := nodes[0];
        var ns := InScope(own, outer);
        InScopeValid(own, outer);
        TagInOrder(qname, attributes, ns, inclusive, rendered);
        CanonicalInOrder(children, exclude, inclusive, ns, Rendered(qname, attributes, ns, inclusive, rendered).scope);
      }
    }
  }
}
