/**
  The main result about `canonicalize`: its string determines the meaning of the
  element it was made from, exactly when every namespaced attribute finds a prefix.
 */
module ExcC14nFidelity {
  import opened Options
  import opened XmlTree
  import opened ExcC14n
  import opened ExcC14nParser
  import opened ExcC14nSorting
  import StableSort
  import opened ExcC14nNamespaces

  // ------------------------------------------------------ attribute fields

  lemma DeclarationHasColon(name: string)
    ensures "xmlns:" <= name ==> ':' in name
  {
    if "xmlns:" <= name {
      assert name[5] == ':';
    }
  }

  lemma JoinedName(p: string, name: string)
    requires IsNcName(p) && IsNcName(name)
    ensures var q := p + ":" + name;
            && IsName(q) && Prefix(q) == Some(p) && Local(q) == name && q != "xmlns"
            && ("xmlns:" <= q ==> p == "xmlns")
  {
    var q := p + ":" + name;
    PrefixedName(p, name);
    NamesJoin(p, ":");
    NamesJoin(p + ":", name);
    assert q[|p|] == ':';
    if "xmlns:" <= q {
      assert q == "xmlns" + ":" + q[6..];
      PrefixedName("xmlns", q[6..]);
    }
  }

  lemma FoundPrefix(ns: seq<Namespace>, uri: string)
    requires ValidScope(ns) && LookupPrefix(ns, uri).Some?
    ensures var p := LookupPrefix(ns, uri).value; IsNcName(p) && p != "xmlns" && (uri == XML_NAMESPACE <==> p == "xml")
  {
    if uri != XML_NAMESPACE {
      LookupPrefixSound(ns, uri);
    }
  }

  lemma QNameOf(a: Attribute, ns: seq<Namespace>)
    requires ValidScope(ns) && ValidAttribute(a)
    ensures var q := AttributeQName(a, ns);
            && IsName(q)
            && (Prefixed(a, ns) ==> !IsDeclaration(Field(q, a.value)))
            && (IsDeclaration(Field(q, a.value)) ==> q == "xmlns")
            && match a.namespace
               case None => Prefix(q) == None && q == a.name
               case Some(u) =>
                 match LookupPrefix(ns, u)
                 case None => Prefix(q) == None && q == a.name
                 case Some(p) => Prefix(q) == Some(p) && Local(q) == a.name && ':' !in p
                                 && (u == XML_NAMESPACE <==> p == "xml") && p != "xmlns"
  {
    if a.namespace.Some? && LookupPrefix(ns, a.namespace.value).Some? {
      var p := LookupPrefix(ns, a.namespace.value).value;
      FoundPrefix(ns, a.namespace.value);
      JoinedName(p, a.name);
      assert AttributeQName(a, ns) == p + ":" + a.name;
    } else {
      DeclarationHasColon(a.name);
    }
  }

  lemma AttributeFields(attributes: seq<Attribute>, ns: seq<Namespace>, l: Line)
    requires l in Sort(AttributeLines(attributes, ns))
    ensures exists a :: a in attributes && l == AttributeLine(a, ns)
  {
    SortOrders(AttributeLines(attributes, ns));
    var i :| 0 <= i < |attributes| && AttributeLines(attributes, ns)[i] == l;
    assert attributes[i] in attributes && l == AttributeLine(attributes[i], ns);
  }

  /** Namespaced attributes contribute their prefixes to the considered list. */
  lemma {:induction false} AttributePrefixConsidered(attributes: seq<Attribute>, ns: seq<Namespace>, a: Attribute)
    requires a in attributes && a.namespace.Some? && LookupPrefix(ns, a.namespace.value).Some?
    ensures LookupPrefix(ns, a.namespace.value) in AttributePrefixes(attributes, ns)
  {
    if attributes[0] != a {
      assert a in attributes[1..];
      AttributePrefixConsidered(attributes[1..], ns, a);
    }
  }

  // --------------------------------------------------- reading attributes

  lemma {:induction false} ReadDeclarationsSplit(env: RenderedNs, a: seq<Field>, b: seq<Field>)
    ensures ReadDeclarations(env, a + b) == ReadDeclarations(ReadDeclarations(env, a), b)
    decreases a
  {
    if a == [] {
      assert a + b == b;
    } else {
      assert (a + b)[1..] == a[1..] + b;
      ReadDeclarationsSplit(if IsDeclaration(a[0]) then env[DeclaredPrefix(a[0]) := a[0].value] else env, a[1..], b);
    }
  }

  /** Attribute fields never rebind a prefix, and no default either once all are prefixed. */
  lemma {:induction false} AttributeFieldsBind(env: RenderedNs, fields: seq<Field>)
    requires forall f <- fields :: IsDeclaration(f) ==> f.name == "xmlns"
    ensures forall p :: Bound(ReadDeclarations(env, fields), Some(p)) == Bound(env, Some(p))
    ensures (forall f <- fields :: !IsDeclaration(f)) ==> ReadDeclarations(env, fields) == env
    decreases fields
  {
    if fields != [] {
      assert fields[0] in fields;
      AttributeFieldsBind(if IsDeclaration(fields[0]) then env[None := fields[0].value] else env, fields[1..]);
      assert forall f :: f in fields[1..] ==> f in fields;
    }
  }

  lemma {:induction false} ReadAttributesSplit(env: RenderedNs, a: seq<Field>, b: seq<Field>)
    requires forall f <- a :: IsDeclaration(f)
    ensures ReadAttributes(env, a + b) == ReadAttributes(env, b)
  {
    if a == [] {
      assert a + b == b;
    } else {
      assert a[0] in a;
      assert (a + b)[1..] == a[1..] + b;
      ReadAttributesSplit(env, a[1..], b);
    }
  }

  lemma {:induction false} ReadAttributesMember(env: RenderedNs, fields: seq<Field>, a: Attribute)
    requires a in ReadAttributes(env, fields)
    ensures exists f :: f in fields && !IsDeclaration(f) && a == ReadAttribute(env, f)
  {
    if IsDeclaration(fields[0]) || a != ReadAttribute(env, fields[0]) {
      ReadAttributesMember(env, fields[1..], a);
      var f :| f in fields[1..] && !IsDeclaration(f) && a == ReadAttribute(env, f);
      assert f in fields;
    } else {
      assert fields[0] in fields;
    }
  }

  function OfLine(l: Line): Attribute {
    Attribute(if l.major == "" then None else Some(l.major), l.minor, l.value)
  }

  function LineAttributes(lines: seq<Line>): multiset<Attribute> {
    if lines == [] then multiset{} else multiset{OfLine(lines[0])} + LineAttributes(lines[1..])
  }

  lemma {:induction false} LineAttributesInsert(x: Line, s: seq<Line>)
    ensures LineAttributes(StableSort.Insert(x, s, LineLe)) == multiset{OfLine(x)} + LineAttributes(s)
  {
    if s != [] && LineLe(s[0], x) {
      LineAttributesInsert(x, s[1..]);
      var rest := StableSort.Insert(x, s[1..], LineLe);
      assert ([s[0]] + rest)[1..] == rest;
    } else {
      assert ([x] + s)[1..] == s;
    }
  }

  lemma OfAttributeLine(a: Attribute, ns: seq<Namespace>)
    requires ValidAttribute(a)
    ensures OfLine(AttributeLine(a, ns)) == a
  {
  }

  lemma MultisetLast<T>(s: seq<T>, n: nat)
    requires |s| == n + 1
    ensures multiset(s) == multiset{s[n]} + multiset(s[..n])
  {
    assert s == s[..n] + [s[n]];
  }

  lemma SortedLinesStep(attributes: seq<Attribute>, ns: seq<Namespace>, n: nat)
    requires |attributes| == n + 1
    ensures Sort(AttributeLines(attributes, ns))
         == StableSort.Insert(AttributeLine(attributes[n], ns), Sort(AttributeLines(attributes[..n], ns)), LineLe)
  {
    assert AttributeLines(attributes, ns)[..n] == AttributeLines(attributes[..n], ns);
  }

  lemma {:induction false} LineAttributesSort(attributes: seq<Attribute>, ns: seq<Namespace>)
    requires forall a <- attributes :: ValidAttribute(a)
    ensures LineAttributes(Sort(AttributeLines(attributes, ns))) == multiset(attributes)
  {
    if attributes != [] {
      var n := |attributes| - 1;
      LineAttributesSort(attributes[..n], ns);
      SortedLinesStep(attributes, ns, n);
      LineAttributesInsert(AttributeLine(attributes[n], ns), Sort(AttributeLines(attributes[..n], ns)));
      OfAttributeLine(attributes[n], ns);
      MultisetLast(attributes, n);
    }
  }

  lemma {:induction false} ReadSortedLines(env: RenderedNs, lines: seq<Line>)
    requires forall l <- lines :: !IsDeclaration(Field(l.name, l.value))
                                  && ReadAttribute(env, Field(l.name, l.value)) == OfLine(l)
    ensures ReadAttributes(env, Fields(lines)) == LineAttributes(lines)
  {
    if lines != [] {
      assert lines[0] in lines;
      assert Fields(lines)[1..] == Fields(lines[1..]);
      ReadSortedLines(env, lines[1..]);
    }
  }

  // ------------------------------------------------------- one start tag

  ghost predicate AllPrefixed(attributes: seq<Attribute>, ns: seq<Namespace>) {
    forall a <- attributes :: Prefixed(a, ns)
  }

  /** What the output bindings must offer for the attributes to be read back. */
  ghost predicate BindsAttributes(env: RenderedNs, attributes: seq<Attribute>, ns: seq<Namespace>) {
    forall a <- attributes :: a.namespace.Some? && a.namespace.value != XML_NAMESPACE && Prefixed(a, ns) ==>
      Bound(env, LookupPrefix(ns, a.namespace.value)) == a.namespace.value
  }

  lemma AttributeReadBack(env: RenderedNs, attributes: seq<Attribute>, ns: seq<Namespace>, a: Attribute)
    requires ValidScope(ns) && ValidAttribute(a) && a in attributes && BindsAttributes(env, attributes, ns)
    ensures var read := ReadAttribute(env, Field(AttributeQName(a, ns), a.value));
            if Prefixed(a, ns) then read == a else read == Attribute(None, a.name, a.value)
  {
    QNameOf(a, ns);
  }

  lemma LineReadBack(env: RenderedNs, attributes: seq<Attribute>, ns: seq<Namespace>, l: Line)
    requires ValidScope(ns) && (forall a <- attributes :: ValidAttribute(a)) && BindsAttributes(env, attributes, ns)
    requires AllPrefixed(attributes, ns) && l in Sort(AttributeLines(attributes, ns))
    ensures !IsDeclaration(Field(l.name, l.value)) && ReadAttribute(env, Field(l.name, l.value)) == OfLine(l)
  {
    AttributeFields(attributes, ns, l);
    var a :| a in attributes && l == AttributeLine(a, ns);
    QNameOf(a, ns);
    AttributeReadBack(env, attributes, ns, a);
    OfAttributeLine(a, ns);
  }

  lemma PrefixedReadBack(env: RenderedNs, attributes: seq<Attribute>, ns: seq<Namespace>)
    requires ValidScope(ns) && (forall a <- attributes :: ValidAttribute(a)) && BindsAttributes(env, attributes, ns)
    requires AllPrefixed(attributes, ns)
    ensures ReadAttributes(env, Fields(Sort(AttributeLines(attributes, ns)))) == multiset(attributes)
  {
    var lines := Sort(AttributeLines(attributes, ns));
    forall l | l in lines
      ensures !IsDeclaration(Field(l.name, l.value)) && ReadAttribute(env, Field(l.name, l.value)) == OfLine(l)
    {
      LineReadBack(env, attributes, ns, l);
    }
    ReadSortedLines(env, lines);
    LineAttributesSort(attributes, ns);
  }

  /** Whatever is read from the tag is an attribute as written or one that lost its namespace. */
  lemma ReadIsPrefixed(env: RenderedNs, attributes: seq<Attribute>, ns: seq<Namespace>, a: Attribute)
    requires ValidScope(ns) && (forall b <- attributes :: ValidAttribute(b)) && BindsAttributes(env, attributes, ns)
    requires a in ReadAttributes(env, Fields(Sort(AttributeLines(attributes, ns))))
    ensures Prefixed(a, ns)
  {
    var lines := Sort(AttributeLines(attributes, ns));
    ReadAttributesMember(env, Fields(lines), a);
    var f :| f in Fields(lines) && !IsDeclaration(f) && a == ReadAttribute(env, f);
    var i :| 0 <= i < |lines| && Fields(lines)[i] == f;
    AttributeFields(attributes, ns, lines[i]);
    var b :| b in attributes && lines[i] == AttributeLine(b, ns);
    AttributeReadBack(env, attributes, ns, b);
  }

  /** A tag's attributes are read back exactly when every namespace among them has a prefix. */
  lemma AttributesReadBack(env: RenderedNs, attributes: seq<Attribute>, ns: seq<Namespace>)
    requires ValidScope(ns) && (forall a <- attributes :: ValidAttribute(a)) && BindsAttributes(env, attributes, ns)
    ensures ReadAttributes(env, Fields(Sort(AttributeLines(attributes, ns)))) == multiset(attributes)
            <==> AllPrefixed(attributes, ns)
  {
    var read := ReadAttributes(env, Fields(Sort(AttributeLines(attributes, ns))));
    if AllPrefixed(attributes, ns) {
      PrefixedReadBack(env, attributes, ns);
    } else if read == multiset(attributes) {
      forall a | a in attributes
        ensures Prefixed(a, ns)
      {
        assert a in read;
        ReadIsPrefixed(env, attributes, ns, a);
      }
    }
  }

  lemma ListedFields(attributes: seq<Attribute>, ns: seq<Namespace>)
    requires ValidScope(ns) && forall a <- attributes :: ValidAttribute(a)
    ensures var listed := Fields(Sort(AttributeLines(attributes, ns)));
            forall f <- listed ::
              && IsName(f.name)
              && (IsDeclaration(f) ==> f.name == "xmlns")
              && (AllPrefixed(attributes, ns) ==> !IsDeclaration(f))
  {
    var lines := Sort(AttributeLines(attributes, ns));
    forall f | f in Fields(lines)
      ensures IsName(f.name) && (IsDeclaration(f) ==> f.name == "xmlns")
      ensures AllPrefixed(attributes, ns) ==> !IsDeclaration(f)
    {
      var i :| 0 <= i < |lines| && Fields(lines)[i] == f;
      AttributeFields(attributes, ns, lines[i]);
      var a :| a in attributes && lines[i] == AttributeLine(a, ns);
      QNameOf(a, ns);
    }
  }

  lemma AttributeBound(qname: string, attributes: seq<Attribute>, ns: seq<Namespace>, inclusive: seq<string>,
                       a: Attribute)
    requires ValidScope(ns) && a in attributes && ValidAttribute(a)
    requires a.namespace.Some? && a.namespace.value != XML_NAMESPACE && Prefixed(a, ns)
    ensures var p := LookupPrefix(ns, a.namespace.value);
            p.Some? && p in Considered(qname, attributes, ns, inclusive) && Renderable(ns, p)
              && Uri(ns, p) == a.namespace.value
  {
    LookupPrefixSound(ns, a.namespace.value);
    AttributePrefixConsidered(attributes, ns, a);
  }

  lemma NamePrefixRenderable(qname: string, ns: seq<Namespace>)
    requires ValidScope(ns) && ValidElementName(qname, ns)
    ensures Prefix(qname) == Some("xml") || Renderable(ns, Prefix(qname))
  {
    if Prefix(qname).Some? {
      LookupUriMember(ns, Prefix(qname));
    }
  }

  /** Bindings a reader holds after one rendered start tag. */
  lemma TagBindings(qname: string, attributes: seq<Attribute>, ns: seq<Namespace>, inclusive: seq<string>,
                    rendered: RenderedNs, env: RenderedNs)
    requires ValidScope(ns) && ValidElementName(qname, ns) && (forall a <- attributes :: ValidAttribute(a))
    requires SameBindings(rendered, env)
    ensures var r := Rendered(qname, attributes, ns, inclusive, rendered);
            var fields := TagOf(qname, attributes, ns, r.declarations).fields;
            var inner := ReadDeclarations(env, fields);
            && BindsAttributes(inner, attributes, ns)
            && (AllPrefixed(attributes, ns) ==> 
                 && SameBindings(r.scope, inner)
                 && ElementUri(Prefix(qname), Bound(inner, Prefix(qname)))
                   == ElementUri(Prefix(qname), Uri(ns, Prefix(qname))))
            && ReadAttributes(inner, fields) == ReadAttributes(inner, Fields(Sort(AttributeLines(attributes, ns))))
  {
    var ps := Considered(qname, attributes, ns, inclusive);
    var r := Rendered(qname, attributes, ns, inclusive, rendered);
    var declared, listed := Fields(Sort(r.declarations)), Fields(Sort(AttributeLines(attributes, ns)));
    var mid := ReadDeclarations(env, declared);
    var inner := ReadDeclarations(env, declared + listed);
    assert declared + [] == declared;
    RenderedRead(ps, ns, rendered, env, Sort(r.declarations), []);
    ReadDeclarationsSplit(env, declared, listed);
    ListedFields(attributes, ns);
    AttributeFieldsBind(mid, listed);
    ReadAttributesSplit(inner, declared, listed);
    ConsiderAllEffect(Rendering(rendered, []), ns, ps);
    assert Prefix(qname) in ps by { assert ps[0] == Prefix(qname); }
    forall a | a in attributes && a.namespace.Some? && a.namespace.value != XML_NAMESPACE && Prefixed(a, ns)
      ensures Bound(inner, LookupPrefix(ns, a.namespace.value)) == a.namespace.value
    {
      AttributeBound(qname, attributes, ns, inclusive, a);
    }
    assert Prefix(qname) == Some("xml") || Renderable(ns, Prefix(qname)) by {
      NamePrefixRenderable(qname, ns);
    }
  }

  // -------------------------------------------------------- whole subtrees

  /** One start tag means what the source element meant exactly when its attributes are prefixed. */
  lemma HeadReadBack(qname: string, attributes: seq<Attribute>, ns: seq<Namespace>, inclusive: seq<string>,
                     rendered: RenderedNs, env: RenderedNs)
    requires ValidScope(ns) && ValidElementName(qname, ns) && (forall a <- attributes :: ValidAttribute(a))
    requires SameBindings(rendered, env)
    ensures var r := Rendered(qname, attributes, ns, inclusive, rendered);
            var tag := TagOf(qname, attributes, ns, r.declarations);
            var inner := ReadDeclarations(env, tag.fields);
            && (ReadHead(tag, inner) == SourceHead(qname, attributes, ns) <==> AllPrefixed(attributes, ns))
            && (AllPrefixed(attributes, ns) ==> SameBindings(r.scope, inner))
  {
    var r := Rendered(qname, attributes, ns, inclusive, rendered);
    var inner := ReadDeclarations(env, TagOf(qname, attributes, ns, r.declarations).fields);
    TagBindings(qname, attributes, ns, inclusive, rendered, env);
    AttributesReadBack(inner, attributes, ns);
  }

  lemma {:induction false} ResolveCanonical(nodes: seq<Node>, exclude: Option<nat>, inclusive: seq<string>,
                                            outer: seq<Namespace>, rendered: RenderedNs, env: RenderedNs)
    requires ValidScope(outer) && ValidNodes(nodes, outer) && SameBindings(rendered, env)
    ensures Resolve(Canonical(nodes, exclude, inclusive, outer, rendered), env) == Infoset(nodes, exclude, outer)
            <==> AttributesPrefixed(nodes, exclude, outer)
    decreases nodes
  {
    if nodes != [] {
      ResolveCanonical(nodes[1..], exclude, inclusive, outer, rendered, env);
      if nodes[0].Element? && Some(nodes[0].id) != exclude {
        var Element(_, qname, own, attributes, children) := nodes[0];
        var ns := InScope(own, outer);
        var r := Rendered(qname, attributes, ns, inclusive, rendered);
        var tag := TagOf(qname, attributes, ns, r.declarations);
        InScopeValid(own, outer);
        HeadReadBack(qname, attributes, ns, inclusive, rendered, env);
        if AllPrefixed(attributes, ns) {
          ResolveCanonical(children, exclude, inclusive, ns, r.scope, ReadDeclarations(env, tag.fields));
        }
        ElementResolved(nodes, exclude, inclusive, outer, rendered, env, ns, r, tag);
      }
    }
  }

  /** Unfolding the definitions at an element. */
  lemma ElementResolved(nodes: seq<Node>, exclude: Option<nat>, inclusive: seq<string>, outer: seq<Namespace>,
                        rendered: RenderedNs, env: RenderedNs, ns: seq<Namespace>, r: Rendering, tag: Tag)
    requires nodes != [] && nodes[0].Element? && Some(nodes[0].id) != exclude
    requires ns == InScope(nodes[0].own, outer)
    requires r == Rendered(nodes[0].qname, nodes[0].attributes, ns, inclusive, rendered)
    requires tag == TagOf(nodes[0].qname, nodes[0].attributes, ns, r.declarations)
    ensures Resolve(Canonical(nodes, exclude, inclusive, outer, rendered), env)
         == Elem(ReadHead(tag, ReadDeclarations(env, tag.fields)),
                 Resolve(Canonical(nodes[0].children, exclude, inclusive, ns, r.scope),
                         ReadDeclarations(env, tag.fields)),
                 Resolve(Canonical(nodes[1..], exclude, inclusive, outer, rendered), env))
    ensures Infoset(nodes, exclude, outer)
         == Elem(SourceHead(nodes[0].qname, nodes[0].attributes, ns),
                 Infoset(nodes[0].children, exclude, ns), Infoset(nodes[1..], exclude, outer))
    ensures AttributesPrefixed(nodes, exclude, outer)
            <==> AttributesPrefixed(nodes[1..], exclude, outer) && AllPrefixed(nodes[0].attributes, ns)
                 && AttributesPrefixed(nodes[0].children, exclude, ns)
  {
  }

  lemma {:induction false} ResolvedShape(nodes: seq<Node>, exclude: Option<nat>, inclusive: seq<string>,
                                         outer: seq<Namespace>, rendered: RenderedNs, env: RenderedNs)
    ensures SameShape(Resolve(Canonical(nodes, exclude, inclusive, outer, rendered), env),
                      Infoset(nodes, exclude, outer))
    decreases nodes
  {
    if nodes != [] {
      ResolvedShape(nodes[1..], exclude, inclusive, outer, rendered, env);
      if nodes[0].Element? && Some(nodes[0].id) != exclude {
        var ns := InScope(nodes[0].own, outer);
        var r := Rendered(nodes[0].qname, nodes[0].attributes, ns, inclusive, rendered);
        var inner := ReadDeclarations(env, TagOf(nodes[0].qname, nodes[0].attributes, ns, r.declarations).fields);
        ResolvedShape(nodes[0].children, exclude, inclusive, ns, r.scope, inner);
      }
    }
  }

  // --------------------------------------------------- shapes and merging

  /** Equal up to what heads the elements. */
  predicate SameShape<E, F>(a: Content<E>, b: Content<F>) {
    match (a, b)
    case (End, End) => true
    case (Run(s, n), Run(t, m)) => s == t && SameShape(n, m)
    case (Pi(t, v, n), Pi(u, w, m)) => t == u && v == w && SameShape(n, m)
    case (Elem(_, c, n), Elem(_, d, m)) => SameShape(c, d) && SameShape(n, m)
    case _ => false
  }

  lemma {:induction false} MergeKeepsDifferences<E>(a: Content<E>, b: Content<E>)
    requires SameShape(a, b)
    ensures Merge(a) == Merge(b) <==> a == b
    ensures Merge(a).Run? <==> Merge(b).Run?
    ensures Merge(a).Run? ==> Merge(a).text == Merge(b).text
    ensures Merge(a).Run? ==> (Merge(a).next == Merge(b).next <==> a == b)
  {
    match a
    case End =>
    case Run(_, n) => MergeKeepsDifferences(n, b.next);
    case Pi(_, _, n) => MergeKeepsDifferences(n, b.next);
    case Elem(_, c, n) =>
      MergeKeepsDifferences(c, b.children);
      MergeKeepsDifferences(n, b.next);
  }

  lemma {:induction false} ResolveMerge(c: Content<Tag>, env: RenderedNs)
    ensures Resolve(Merge(c), env) == Merge(Resolve(c, env))
    decreases c
  {
    match c
    case End =>
    case Run(_, next) => ResolveMerge(next, env);
    case Pi(_, _, next) => ResolveMerge(next, env);
    case Elem(tag, children, next) =>
      ResolveMerge(children, ReadDeclarations(env, tag.fields));
      ResolveMerge(next, env);
  }

  lemma {:induction false} CanonicalPrintable(nodes: seq<Node>, exclude: Option<nat>, inclusive: seq<string>,
                                              outer: seq<Namespace>, rendered: RenderedNs)
    requires ValidScope(outer) && ValidNodes(nodes, outer)
    ensures Printable(Canonical(nodes, exclude, inclusive, outer, rendered))
    decreases nodes
  {
    if nodes != [] {
      CanonicalPrintable(nodes[1..], exclude, inclusive, outer, rendered);
      if nodes[0].Element? && Some(nodes[0].id) != exclude {
        var ns := InScope(nodes[0].own, outer);
        var r := Rendered(nodes[0].qname, nodes[0].attributes, ns, inclusive, rendered);
        InScopeValid(nodes[0].own, outer);
        TagPrintable(nodes[0].qname, nodes[0].attributes, ns, inclusive, rendered);
        CanonicalPrintable(nodes[0].children, exclude, inclusive, ns, r.scope);
      }
    }
  }

  lemma TagPrintable(qname: string, attributes: seq<Attribute>, ns: seq<Namespace>, inclusive: seq<string>,
                     rendered: RenderedNs)
    requires ValidScope(ns) && forall a <- attributes :: ValidAttribute(a)
    ensures var r := Rendered(qname, attributes, ns, inclusive, rendered);
            forall f <- TagOf(qname, attributes, ns, r.declarations).fields :: IsName(f.name)
  {
    var ps := Considered(qname, attributes, ns, inclusive);
    var r := Rendered(qname, attributes, ns, inclusive, rendered);
    var lines := Sort(r.declarations);
    ConsiderAllEffect(Rendering(rendered, []), ns, ps);
    SortOrders(r.declarations);
    ListedFields(attributes, ns);
    forall f | f in Fields(lines)
      ensures IsName(f.name)
    {
      var i :| 0 <= i < |lines| && Fields(lines)[i] == f;
      assert lines[i] in r.declarations;
      assert CalledFor(lines[i], rendered, ns, ps);
      var p :| p in ps && Renderable(ns, p) && lines[i] == Declaration(p, Uri(ns, p));
      DeclarationRead(ns, p, Uri(ns, p));
    }
  }

  // ------------------------------------------------------------- theorems

  /** A namespace-aware reader of the canonical string. */
  function Read(s: string): Option<Content<Expanded>> {
    var (content, rest) :- Parse(s);
    if rest == "" then Some(Resolve(content, map[])) else None
  }

  /**
    The canonical string of an element is read back as the element's own meaning
    (names expanded, comments and the excluded subtree gone, adjacent text joined)
    exactly when the writer finds a prefix for every namespaced attribute.
   */
  lemma CanonicalMeaning(element: Node, exclude: Option<nat>, inclusive: seq<string>, outer: seq<Namespace>)
    requires ValidScope(outer) && ValidNode(element, outer)
    ensures Read(CanonicalString(element, exclude, inclusive, outer)) == Some(Merge(Infoset([element], exclude, outer)))
            <==> AttributesPrefixed([element], exclude, outer)
  {
    var c := Canonical([element], exclude, inclusive, outer, map[]);
    assert ValidNodes([element], outer) by { assert ValidNodes([element][1..], outer); }
    CanonicalPrintable([element], exclude, inclusive, outer, map[]);
    RoundTrip(c);
    ResolveMerge(c, map[]);
    ResolveCanonical([element], exclude, inclusive, outer, map[], map[]);
    ResolvedShape([element], exclude, inclusive, outer, map[], map[]);
    MergeKeepsDifferences(Resolve(c, map[]), Infoset([element], exclude, outer));
  }

  /** Two elements with one canonical string mean the same, whatever their documents were. */
  lemma EqualStringsEqualMeaning(e: Node, f: Node, excludeE: Option<nat>, excludeF: Option<nat>,
                                 inclusiveE: seq<string>, inclusiveF: seq<string>,
                                 outerE: seq<Namespace>, outerF: seq<Namespace>)
    requires ValidScope(outerE) && ValidNode(e, outerE) && AttributesPrefixed([e], excludeE, outerE)
    requires ValidScope(outerF) && ValidNode(f, outerF) && AttributesPrefixed([f], excludeF, outerF)
    requires CanonicalString(e, excludeE, inclusiveE, outerE) == CanonicalString(f, excludeF, inclusiveF, outerF)
    ensures Merge(Infoset([e], excludeE, outerE)) == Merge(Infoset([f], excludeF, outerF))
  {
    CanonicalMeaning(e, excludeE, inclusiveE, outerE);
    CanonicalMeaning(f, excludeF, inclusiveF, outerF);
  }
}
