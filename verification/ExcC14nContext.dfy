/**
  How the canonical string of an element depends on the document around it.
  The ancestors are seen only through the in-scope namespaces they contribute,
  and only through three questions asked about those.
 */
module ExcC14nContext {
  import opened Options
  import opened XmlTree
  import opened ExcC14n
  import opened ExcC14nParser
  import opened ExcC14nSorting
  import opened ExcC14nNamespaces
  import opened ExcC14nFidelity

  /** Two contexts answer alike: element prefixes, prefixes for attribute namespaces, the PrefixList. */
  predicate SameView(nodes: seq<Node>, exclude: Option<nat>, inclusive: seq<string>,
                     a: seq<Namespace>, b: seq<Namespace>)
  {
    nodes == [] ||
    (&& SameView(nodes[1..], exclude, inclusive, a, b)
     && (nodes[0].Element? && Some(nodes[0].id) != exclude ==>
           var na, nb := InScope(nodes[0].own, a), InScope(nodes[0].own, b);
           SameTagView(nodes[0].qname, nodes[0].attributes, inclusive, na, nb)
           && SameView(nodes[0].children, exclude, inclusive, na, nb)))
  }

  predicate SameTagView(qname: string, attributes: seq<Attribute>, inclusive: seq<string>,
                        na: seq<Namespace>, nb: seq<Namespace>)
  {
    && Uri(na, Prefix(qname)) == Uri(nb, Prefix(qname))
    && (forall t <- attributes :: t.namespace.Some? ==>
          LookupPrefix(na, t.namespace.value) == LookupPrefix(nb, t.namespace.value))
    && forall p <- inclusive :: Uri(na, Some(p)) == Uri(nb, Some(p))
  }

  // ---------------------------------------------------- the view suffices

  lemma {:induction false} ConsiderAllSame(r: Rendering, na: seq<Namespace>, nb: seq<Namespace>,
                                           ps: seq<Option<string>>)
    requires forall p <- ps :: Uri(na, p) == Uri(nb, p)
    ensures ConsiderAll(r, na, ps) == ConsiderAll(r, nb, ps)
    decreases ps
  {
    if ps != [] {
      assert ps[0] in ps;
      assert Uri(na, ps[0]) == Uri(nb, ps[0]);
      ConsiderAllSame(Consider(r, na, ps[0]), na, nb, ps[1..]);
    }
  }

  lemma {:induction false} AttributePrefixesSame(attributes: seq<Attribute>, na: seq<Namespace>, nb: seq<Namespace>)
    requires ValidScope(na) && ValidScope(nb)
    requires forall t <- attributes :: t.namespace.Some? ==>
               LookupPrefix(na, t.namespace.value) == LookupPrefix(nb, t.namespace.value)
    ensures AttributePrefixes(attributes, na) == AttributePrefixes(attributes, nb)
    ensures forall p <- AttributePrefixes(attributes, na) :: Uri(na, p) == Uri(nb, p)
  {
    if attributes != [] {
      assert attributes[0] in attributes;
      AttributePrefixesSame(attributes[1..], na, nb);
      var namespace := attributes[0].namespace;
      if namespace.Some? && LookupPrefix(na, namespace.value).Some? {
        AttributePrefixUri(na, namespace.value);
        AttributePrefixUri(nb, namespace.value);
      }
    }
  }

  lemma AttributePrefixUri(ns: seq<Namespace>, uri: string)
    requires ValidScope(ns) && LookupPrefix(ns, uri).Some?
    ensures Uri(ns, LookupPrefix(ns, uri)) == if uri == XML_NAMESPACE then "" else uri
  {
    if uri == XML_NAMESPACE {
      LookupUriMember(ns, Some("xml"));
    } else {
      LookupPrefixSound(ns, uri);
    }
  }

  lemma SameViewSameTag(qname: string, attributes: seq<Attribute>, inclusive: seq<string>,
                        na: seq<Namespace>, nb: seq<Namespace>, rendered: RenderedNs)
    requires ValidScope(na) && ValidScope(nb) && SameTagView(qname, attributes, inclusive, na, nb)
    ensures var r := Rendered(qname, attributes, na, inclusive, rendered);
            r == Rendered(qname, attributes, nb, inclusive, rendered)
            && TagOf(qname, attributes, na, r.declarations) == TagOf(qname, attributes, nb, r.declarations)
  {
    AttributePrefixesSame(attributes, na, nb);
    var ps := Considered(qname, attributes, na, inclusive);
    assert forall p <- Inclusive(inclusive) :: Uri(na, p) == Uri(nb, p);
    ConsiderAllSame(Rendering(rendered, []), na, nb, ps);
    forall i | 0 <= i < |attributes|
      ensures AttributeLines(attributes, na)[i] == AttributeLines(attributes, nb)[i]
    {
      assert attributes[i] in attributes;
    }
    assert AttributeLines(attributes, na) == AttributeLines(attributes, nb);
  }

  lemma {:induction false} SameViewSuffices(nodes: seq<Node>, exclude: Option<nat>, inclusive: seq<string>,
                                            a: seq<Namespace>, b: seq<Namespace>, rendered: RenderedNs)
    requires ValidScope(a) && ValidScope(b) && ValidNodes(nodes, a)
    requires SameView(nodes, exclude, inclusive, a, b)
    ensures Canonical(nodes, exclude, inclusive, a, rendered) == Canonical(nodes, exclude, inclusive, b, rendered)
    decreases nodes
  {
    if nodes != [] {
      SameViewSuffices(nodes[1..], exclude, inclusive, a, b, rendered);
      if nodes[0].Element? && Some(nodes[0].id) != exclude {
        var Element(_, qname, own, attributes, children) := nodes[0];
        var na, nb := InScope(own, a), InScope(own, b);
        InScopeValid(own, a);
        InScopeValid(own, b);
        SameViewSameTag(qname, attributes, inclusive, na, nb, rendered);
        SameViewSuffices(children, exclude, inclusive, na, nb,
                         Rendered(qname, attributes, na, inclusive, rendered).scope);
      }
    }
  }

  // ------------------------------------------------- the view is necessary

  /** Every prefix rendered so far is bound in the source scope. */
  ghost predicate RenderedInScope(rendered: RenderedNs, ns: seq<Namespace>) {
    forall p :: Bound(rendered, Some(p)) != "" ==> Uri(ns, Some(p)) != ""
  }

  lemma InScopeKeeps(own: seq<Namespace>, outer: seq<Namespace>, p: string)
    requires ValidScope(own) && ValidScope(outer) && Uri(outer, Some(p)) != ""
    ensures Uri(InScope(own, outer), Some(p)) != ""
  {
    InScopeUri(own, outer, Some(p));
    LookupUriMember(own, Some(p));
  }

  lemma {:induction false} LookupUriAppend(s: seq<Namespace>, t: seq<Namespace>, p: Option<string>)
    ensures LookupUri(s + t, p) == if LookupUri(s, p).Some? then LookupUri(s, p) else LookupUri(t, p)
  {
    if s == [] {
      assert s + t == t;
    } else {
      assert (s + t)[1..] == s[1..] + t;
      LookupUriAppend(s[1..], t, p);
    }
  }

  lemma {:induction false} InheritedUri(own: seq<Namespace>, outer: seq<Namespace>, p: Option<string>)
    ensures LookupUri(Inherited(own, outer), p) == if Declares(own, p) then None else LookupUri(outer, p)
  {
    if outer != [] {
      InheritedUri(own, outer[1..], p);
      var head := if Declares(own, outer[0].prefix) then [] else [outer[0]];
      LookupUriAppend(head, Inherited(own, outer[1..]), p);
    }
  }

  lemma InScopeUri(own: seq<Namespace>, outer: seq<Namespace>, p: Option<string>)
    ensures LookupUri(InScope(own, outer), p) == if Declares(own, p) then LookupUri(own, p) else LookupUri(outer, p)
  {
    LookupUriMember(own, p);
    InheritedUri(own, outer, p);
    LookupUriAppend(own, Inherited(own, outer), p);
  }

  /** Equal tags under equal bindings force equal answers. */
  lemma SameTagSameView(qname: string, attributes: seq<Attribute>, inclusive: seq<string>,
                        na: seq<Namespace>, nb: seq<Namespace>, rendered: RenderedNs, other: RenderedNs)
    requires ValidScope(na) && ValidScope(nb) && ValidElementName(qname, na) && ValidElementName(qname, nb)
    requires (forall t <- attributes :: ValidAttribute(t))
             && (forall i, j :: 0 <= i < j < |attributes| ==>
                   (attributes[i].namespace, attributes[i].name) != (attributes[j].namespace, attributes[j].name))
    requires SameBindings(rendered, other) && RenderedInScope(rendered, na) && RenderedInScope(other, nb)
    requires TagOf(qname, attributes, na, Rendered(qname, attributes, na, inclusive, rendered).declarations)
          == TagOf(qname, attributes, nb, Rendered(qname, attributes, nb, inclusive, other).declarations)
    ensures SameTagView(qname, attributes, inclusive, na, nb)
    ensures SameBindings(Rendered(qname, attributes, na, inclusive, rendered).scope,
                         Rendered(qname, attributes, nb, inclusive, other).scope)
  {
    var ra := Rendered(qname, attributes, na, inclusive, rendered);
    var rb := Rendered(qname, attributes, nb, inclusive, other);
    var pa, pb := Considered(qname, attributes, na, inclusive), Considered(qname, attributes, nb, inclusive);
    SplitTag(qname, attributes, na, nb, ra.declarations, rb.declarations);
    SameAttributeNames(attributes, na, nb);
    assert SameBindings(ra.scope, rb.scope) by {
      RenderedRead(pa, na, rendered, rendered, Sort(ra.declarations), []);
      RenderedRead(pb, nb, other, rendered, Sort(rb.declarations), []);
    }
    ConsiderAllEffect(Rendering(rendered, []), na, pa);
    ConsiderAllEffect(Rendering(other, []), nb, pb);
    assert pa[0] == Prefix(qname) && pb[0] == Prefix(qname);
    NamePrefixRenderable(qname, na);
    NamePrefixRenderable(qname, nb);
    if Prefix(qname) == Some("xml") {
      LookupUriMember(na, Some("xml"));
      LookupUriMember(nb, Some("xml"));
    }
    forall p | p in inclusive
      ensures Uri(na, Some(p)) == Uri(nb, Some(p))
    {
      InclusiveConsidered(qname, attributes, na, inclusive, p);
      InclusiveConsidered(qname, attributes, nb, inclusive, p);
      InclusiveAnswer(p, na, nb, rendered, other, ra.scope, rb.scope);
    }
  }

  lemma InclusiveConsidered(qname: string, attributes: seq<Attribute>, ns: seq<Namespace>, inclusive: seq<string>,
                            p: string)
    requires p in inclusive
    ensures Some(p) in Considered(qname, attributes, ns, inclusive)
  {
    var i :| 0 <= i < |inclusive| && inclusive[i] == p;
    assert Inclusive(inclusive)[i] == Some(p);
  }

  lemma InclusiveAnswer(p: string, na: seq<Namespace>, nb: seq<Namespace>, ra: RenderedNs, rb: RenderedNs,
                        sa: RenderedNs, sb: RenderedNs)
    requires ValidScope(na) && ValidScope(nb)
    requires SameBindings(ra, rb) && SameBindings(sa, sb) && RenderedInScope(ra, na) && RenderedInScope(rb, nb)
    requires Bound(sa, Some(p)) == if Renderable(na, Some(p)) then Uri(na, Some(p)) else Bound(ra, Some(p))
    requires Bound(sb, Some(p)) == if Renderable(nb, Some(p)) then Uri(nb, Some(p)) else Bound(rb, Some(p))
    ensures Uri(na, Some(p)) == Uri(nb, Some(p))
  {
    LookupUriMember(na, Some(p));
    LookupUriMember(nb, Some(p));
  }

  lemma SplitTag(qname: string, attributes: seq<Attribute>, na: seq<Namespace>, nb: seq<Namespace>, da: seq<Line>,
                 db: seq<Line>)
    requires TagOf(qname, attributes, na, da) == TagOf(qname, attributes, nb, db)
    ensures Fields(Sort(da)) == Fields(Sort(db))
    ensures Fields(Sort(AttributeLines(attributes, na))) == Fields(Sort(AttributeLines(attributes, nb)))
  {
    var fa, fb := Fields(Sort(AttributeLines(attributes, na))), Fields(Sort(AttributeLines(attributes, nb)));
    SortOrders(AttributeLines(attributes, na));
    SortOrders(AttributeLines(attributes, nb));
    var ta, tb := Fields(Sort(da)) + fa, Fields(Sort(db)) + fb;
    assert ta == tb && |fa| == |fb|;
    assert Fields(Sort(da)) == ta[..|ta| - |fa|] && fa == ta[|ta| - |fa|..];
    assert Fields(Sort(db)) == tb[..|tb| - |fb|] && fb == tb[|tb| - |fb|..];
  }

  lemma SameAttributeNames(attributes: seq<Attribute>, na: seq<Namespace>, nb: seq<Namespace>)
    requires ValidScope(na) && ValidScope(nb) && (forall t <- attributes :: ValidAttribute(t))
    requires forall i, j :: 0 <= i < j < |attributes| ==>
               (attributes[i].namespace, attributes[i].name) != (attributes[j].namespace, attributes[j].name)
    requires Fields(Sort(AttributeLines(attributes, na))) == Fields(Sort(AttributeLines(attributes, nb)))
    ensures forall t <- attributes :: t.namespace.Some? ==>
              LookupPrefix(na, t.namespace.value) == LookupPrefix(nb, t.namespace.value)
  {
    var la, lb := AttributeLines(attributes, na), AttributeLines(attributes, nb);
    forall i, j | 0 <= i < j < |la|
      ensures (la[i].major, la[i].minor) != (la[j].major, la[j].minor)
    {
      assert attributes[i] in attributes && attributes[j] in attributes;
    }
    FieldsDetermineLines(la, lb);
    forall t | t in attributes && t.namespace.Some?
      ensures LookupPrefix(na, t.namespace.value) == LookupPrefix(nb, t.namespace.value)
    {
      var i :| 0 <= i < |attributes| && attributes[i] == t;
      assert la[i].name == lb[i].name;
      QNameOf(t, na);
      QNameOf(t, nb);
    }
  }

  lemma ScopeStays(qname: string, attributes: seq<Attribute>, inclusive: seq<string>, own: seq<Namespace>,
                   outer: seq<Namespace>, rendered: RenderedNs)
    requires ValidScope(own) && ValidScope(outer) && RenderedInScope(rendered, outer)
    ensures RenderedInScope(rendered, InScope(own, outer))
    ensures RenderedInScope(Rendered(qname, attributes, InScope(own, outer), inclusive, rendered).scope,
                            InScope(own, outer))
  {
    var ns := InScope(own, outer);
    InScopeValid(own, outer);
    ConsiderAllEffect(Rendering(rendered, []), ns, Considered(qname, attributes, ns, inclusive));
    forall p | Bound(rendered, Some(p)) != ""
      ensures Uri(ns, Some(p)) != ""
    {
      InScopeKeeps(own, outer, p);
    }
  }

  lemma {:induction false} SameViewNecessary(nodes: seq<Node>, exclude: Option<nat>, inclusive: seq<string>,
                                             a: seq<Namespace>, b: seq<Namespace>, ra: RenderedNs, rb: RenderedNs)
    requires ValidScope(a) && ValidScope(b) && ValidNodes(nodes, a) && ValidNodes(nodes, b)
    requires SameBindings(ra, rb) && RenderedInScope(ra, a) && RenderedInScope(rb, b)
    requires Canonical(nodes, exclude, inclusive, a, ra) == Canonical(nodes, exclude, inclusive, b, rb)
    ensures SameView(nodes, exclude, inclusive, a, b)
    decreases nodes
  {
    if nodes != [] {
      SameViewNecessary(nodes[1..], exclude, inclusive, a, b, ra, rb);
      if nodes[0].Element? && Some(nodes[0].id) != exclude {
        var Element(_, qname, own, attributes, children) := nodes[0];
        var na, nb := InScope(own, a), InScope(own, b);
        InScopeValid(own, a);
        InScopeValid(own, b);
        ScopeStays(qname, attributes, inclusive, own, a, ra);
        ScopeStays(qname, attributes, inclusive, own, b, rb);
        SameTagSameView(qname, attributes, inclusive, na, nb, ra, rb);
        SameViewNecessary(children, exclude, inclusive, na, nb,
                          Rendered(qname, attributes, na, inclusive, ra).scope,
                          Rendered(qname, attributes, nb, inclusive, rb).scope);
      }
    }
  }

  lemma {:induction false} CanonicalShape(nodes: seq<Node>, exclude: Option<nat>, inclusive: seq<string>,
                                          a: seq<Namespace>, b: seq<Namespace>, ra: RenderedNs, rb: RenderedNs)
    ensures SameShape(Canonical(nodes, exclude, inclusive, a, ra), Canonical(nodes, exclude, inclusive, b, rb))
    decreases nodes
  {
    if nodes != [] {
      CanonicalShape(nodes[1..], exclude, inclusive, a, b, ra, rb);
      if nodes[0].Element? {
        var na, nb := InScope(nodes[0].own, a), InScope(nodes[0].own, b);
        CanonicalShape(nodes[0].children, exclude, inclusive, na, nb,
                       Rendered(nodes[0].qname, nodes[0].attributes, na, inclusive, ra).scope,
                       Rendered(nodes[0].qname, nodes[0].attributes, nb, inclusive, rb).scope);
      }
    }
  }

  /** The canonical string is the same in two documents exactly when they give the same view. */
  lemma ContextIndependence(element: Node, exclude: Option<nat>, inclusive: seq<string>,
                            a: seq<Namespace>, b: seq<Namespace>)
    requires ValidScope(a) && ValidScope(b) && ValidNode(element, a) && ValidNode(element, b)
    ensures CanonicalString(element, exclude, inclusive, a) == CanonicalString(element, exclude, inclusive, b)
            <==> SameView([element], exclude, inclusive, a, b)
  {
    var ca := Canonical([element], exclude, inclusive, a, map[]);
    var cb := Canonical([element], exclude, inclusive, b, map[]);
    assert ValidNodes([element][1..], a) && ValidNodes([element][1..], b);
    assert ValidNodes([element], a) && ValidNodes([element], b);
    CanonicalPrintable([element], exclude, inclusive, a, map[]);
    CanonicalPrintable([element], exclude, inclusive, b, map[]);
    SerializeInjective(ca, cb);
    CanonicalShape([element], exclude, inclusive, a, b, map[], map[]);
    MergeKeepsDifferences(ca, cb);
    if ca == cb {
      SameViewNecessary([element], exclude, inclusive, a, b, map[], map[]);
    }
    if SameView([element], exclude, inclusive, a, b) {
      SameViewSuffices([element], exclude, inclusive, a, b, map[]);
    }
  }

  // ------------------------------------- a condition on the contexts alone

  /** Prefixes written on elements of the subtree. */
  function ElementPrefixes(nodes: seq<Node>): set<Option<string>> {
    if nodes == [] then {}
    else (if nodes[0].Element? then {Prefix(nodes[0].qname)} + ElementPrefixes(nodes[0].children) else {})
         + ElementPrefixes(nodes[1..])
  }

  /** Namespaces of attributes of the subtree. */
  function AttributeUris(nodes: seq<Node>): set<string> {
    if nodes == [] then {}
    else (if nodes[0].Element?
          then (set t | t in nodes[0].attributes && t.namespace.Some? :: t.namespace.value)
            + AttributeUris(nodes[0].children)
          else {})
         + AttributeUris(nodes[1..])
  }

  /** The declarations of one URI, in scope order. */
  function Binding(scope: seq<Namespace>, uri: string): seq<Namespace> {
    if scope == [] then []
    else (if scope[0].uri == uri then [scope[0]] else []) + Binding(scope[1..], uri)
  }

  lemma {:induction false} BindingAppend(s: seq<Namespace>, t: seq<Namespace>, uri: string)
    ensures Binding(s + t, uri) == Binding(s, uri) + Binding(t, uri)
  {
    if s == [] {
      assert s + t == t;
    } else {
      assert (s + t)[0] == s[0] && (s + t)[1..] == s[1..] + t;
      BindingAppend(s[1..], t, uri);
      var head := if s[0].uri == uri then [s[0]] else [];
      assert head + (Binding(s[1..], uri) + Binding(t, uri)) == head + Binding(s[1..], uri) + Binding(t, uri);
    }
  }

  lemma {:induction false} BindingInherited(own: seq<Namespace>, outer: seq<Namespace>, uri: string)
    ensures Binding(Inherited(own, outer), uri) == Inherited(own, Binding(outer, uri))
  {
    if outer != [] {
      BindingInherited(own, outer[1..], uri);
      var head := if Declares(own, outer[0].prefix) then [] else [outer[0]];
      BindingAppend(head, Inherited(own, outer[1..]), uri);
      var rest := Binding(outer[1..], uri);
      assert ([outer[0]] + rest)[1..] == rest;
      assert [] + rest == rest;
      assert Binding([outer[0]], uri) == if outer[0].uri == uri then [outer[0]] else [];
    }
  }

  lemma {:induction false} LookupPrefixBinding(scope: seq<Namespace>, uri: string)
    ensures LookupPrefix(scope, uri) == LookupPrefix(Binding(scope, uri), uri)
  {
    if scope != [] && scope[0].uri != uri {
      LookupPrefixBinding(scope[1..], uri);
      assert Binding(scope, uri) == Binding(scope[1..], uri);
    }
  }

  predicate Agree(a: seq<Namespace>, b: seq<Namespace>, prefixes: set<Option<string>>, uris: set<string>) {
    && (forall p <- prefixes :: Uri(a, p) == Uri(b, p))
    && forall u <- uris :: Binding(a, u) == Binding(b, u)
  }

  lemma AgreeInside(own: seq<Namespace>, a: seq<Namespace>, b: seq<Namespace>, prefixes: set<Option<string>>,
                    uris: set<string>)
    requires Agree(a, b, prefixes, uris)
    ensures Agree(InScope(own, a), InScope(own, b), prefixes, uris)
  {
    forall p | p in prefixes
      ensures Uri(InScope(own, a), p) == Uri(InScope(own, b), p)
    {
      InScopeUri(own, a, p);
      InScopeUri(own, b, p);
    }
    forall u | u in uris
      ensures Binding(InScope(own, a), u) == Binding(InScope(own, b), u)
    {
      BindingAppend(own, Inherited(own, a), u);
      BindingAppend(own, Inherited(own, b), u);
      BindingInherited(own, a, u);
      BindingInherited(own, b, u);
    }
  }

  /**
    Contexts that bind the used element prefixes, the PrefixList and the used
    attribute namespaces alike give the same view, whatever else they declare.
   */
  lemma {:induction false} AgreementSuffices(nodes: seq<Node>, exclude: Option<nat>, inclusive: seq<string>,
                                             a: seq<Namespace>, b: seq<Namespace>,
                                             prefixes: set<Option<string>>, uris: set<string>)
    requires ElementPrefixes(nodes) <= prefixes && AttributeUris(nodes) <= uris
    requires forall p <- inclusive :: Some(p) in prefixes
    requires Agree(a, b, prefixes, uris)
    ensures SameView(nodes, exclude, inclusive, a, b)
    decreases nodes
  {
    if nodes != [] {
      AgreementSuffices(nodes[1..], exclude, inclusive, a, b, prefixes, uris);
      if nodes[0].Element? {
        var na, nb := InScope(nodes[0].own, a), InScope(nodes[0].own, b);
        AgreeInside(nodes[0].own, a, b, prefixes, uris);
        AgreementSuffices(nodes[0].children, exclude, inclusive, na, nb, prefixes, uris);
        assert Prefix(nodes[0].qname) in ElementPrefixes(nodes);
        forall t | t in nodes[0].attributes && t.namespace.Some?
          ensures LookupPrefix(na, t.namespace.value) == LookupPrefix(nb, t.namespace.value)
        {
          assert t.namespace.value in AttributeUris(nodes);
          LookupPrefixBinding(na, t.namespace.value);
          LookupPrefixBinding(nb, t.namespace.value);
        }
      }
    }
  }

  // --------------------------------------------------- where it fails

  /** A childless element with one namespaced attribute. */
  function Sample(qname: string, uri: string): Node {
    Element(0, qname, [], [Attribute(Some(uri), "x", "1")], [])
  }

  lemma SampleFacts(qname: string, uri: string, scope: seq<Namespace>, other: seq<Namespace>)
    requires ValidScope(scope) && ValidElementName(qname, scope) && uri != ""
    ensures ValidNode(Sample(qname, uri), scope)
    ensures AttributesPrefixed([Sample(qname, uri)], None, scope) <==> LookupPrefix(scope, uri).Some?
    ensures SameView([Sample(qname, uri)], None, [], scope, other) ==>
            LookupPrefix(scope, uri) == LookupPrefix(other, uri)
  {
    var e := Sample(qname, uri);
    var t := Attribute(Some(uri), "x", "1");
    NothingOwn(scope);
    NothingOwn(other);
    assert InScope([], scope) == scope && InScope([], other) == other;
    assert e.attributes == [t] && t in e.attributes;
    assert [e][1..] == [] && [e][0] == e;
    assert AttributesPrefixed([], None, scope) && ValidNodes([], scope);
  }

  /**
    Agreeing on the binding of every prefix is not enough: two contexts that bind
    the same prefixes to the same URIs, declared in another order, can give
    different strings.
   */
  lemma PrefixAgreementIsNotEnough(p: string, q: string, uri: string)
    requires ValidScope([Namespace(Some(p), uri), Namespace(Some(q), uri)])
    ensures var a := [Namespace(Some(p), uri), Namespace(Some(q), uri)];
            var b := [Namespace(Some(q), uri), Namespace(Some(p), uri)];
            && ValidScope(b) && (forall prefix :: LookupUri(a, prefix) == LookupUri(b, prefix))
            && CanonicalString(Sample("e", uri), None, [], a) != CanonicalString(Sample("e", uri), None, [], b)
  {
    var a := [Namespace(Some(p), uri), Namespace(Some(q), uri)];
    var b := [Namespace(Some(q), uri), Namespace(Some(p), uri)];
    assert a[0] in a && a[1] in a && a[0].prefix != a[1].prefix;
    assert a[1..] == [a[1]] && b[1..] == [b[1]];
    assert forall prefix :: LookupUri([a[1]], prefix) == if prefix == Some(q) then Some(uri) else None;
    assert forall prefix :: LookupUri([b[1]], prefix) == if prefix == Some(p) then Some(uri) else None;
    assert Prefix("e") == None;
    assert LookupPrefix(a, uri) == Some(p) && LookupPrefix(b, uri) == Some(q);
    SampleFacts("e", uri, a, b);
    SampleFacts("e", uri, b, a);
    ContextIndependence(Sample("e", uri), None, [], a, b);
  }

  /**
    An attribute whose namespace is also the default one, declared first, loses
    its prefix in the output and with it its namespace.
   */
  lemma UnprefixedAttributeIsLost(p: string, uri: string)
    requires ValidScope([Namespace(None, uri), Namespace(Some(p), uri)])
    ensures var scope := [Namespace(None, uri), Namespace(Some(p), uri)];
            var e := Sample("e", uri);
            && ValidNode(e, scope)
            && Read(CanonicalString(e, None, [], scope)) != Some(Merge(Infoset([e], None, scope)))
  {
    var scope := [Namespace(None, uri), Namespace(Some(p), uri)];
    assert scope[1] in scope && scope[0] in scope;
    assert Prefix("e") == None;
    assert LookupPrefix(scope, uri) == None;
    SampleFacts("e", uri, scope, scope);
    CanonicalMeaning(Sample("e", uri), None, [], scope);
  }
}
