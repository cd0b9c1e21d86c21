/**
  Laws of `canonicalize` beyond the meaning of its output: no redundant
  declaration, exclusion as pruning, and indifference to the order attributes were
  written in.
 */
module ExcC14nLaws {
  import opened Options
  import opened XmlTree
  import opened ExcC14n
  import StableSort
  import opened ExcC14nSorting
  import opened ExcC14nNamespaces
  import opened ExcC14nFidelity

  // ------------------------------------------------------------ minimality

  /** No prefix declared twice on a tag, and every declaration changes the inherited binding. */
  ghost predicate MinimalTag(tag: Tag, env: RenderedNs) {
    && (forall i, j :: 0 <= i < j < |tag.fields| && IsDeclaration(tag.fields[i]) && IsDeclaration(tag.fields[j]) ==>
          tag.fields[i].name != tag.fields[j].name)
    && forall f <- tag.fields :: IsDeclaration(f) ==> f.value != Bound(env, DeclaredPrefix(f))
  }

  ghost predicate Minimal(c: Content<Tag>, env: RenderedNs)
    decreases c
  {
    match c
    case End => true
    case Run(_, next) => Minimal(next, env)
    case Pi(_, _, next) => Minimal(next, env)
    case Elem(tag, children, next) =>
      MinimalTag(tag, env) && Minimal(children, ReadDeclarations(env, tag.fields)) && Minimal(next, env)
  }

  lemma {:induction false} InsertDistinct(x: Line, s: seq<Line>)
    requires DistinctNames(s) && forall l <- s :: l.name != x.name
    ensures DistinctNames(StableSort.Insert(x, s, LineLe))
    ensures forall l <- StableSort.Insert(x, s, LineLe) :: l == x || l in s
  {
    if s != [] && LineLe(s[0], x) {
      assert forall l :: l in s[1..] ==> l in s;
      InsertDistinct(x, s[1..]);
      var rest := StableSort.Insert(x, s[1..], LineLe);
      forall k | 0 <= k < |rest|
        ensures rest[k].name != s[0].name
      {
        assert rest[k] in rest;
        assert s[0] in s;
      }
    }
  }

  lemma {:induction false} SortDistinct(lines: seq<Line>)
    requires DistinctNames(lines)
    ensures DistinctNames(Sort(lines))
  {
    if lines != [] {
      var front, last := lines[..|lines| - 1], lines[|lines| - 1];
      SortDistinct(front);
      SortOrders(front);
      InsertDistinct(last, Sort(front));
    }
  }

  lemma TagMinimal(qname: string, attributes: seq<Attribute>, ns: seq<Namespace>, inclusive: seq<string>,
                   rendered: RenderedNs, env: RenderedNs)
    requires ValidScope(ns) && (forall a <- attributes :: ValidAttribute(a)) && AllPrefixed(attributes, ns)
    requires SameBindings(rendered, env)
    ensures var r := Rendered(qname, attributes, ns, inclusive, rendered);
            MinimalTag(TagOf(qname, attributes, ns, r.declarations), env)
  {
    var ps := Considered(qname, attributes, ns, inclusive);
    var r := Rendered(qname, attributes, ns, inclusive, rendered);
    var lines := Sort(r.declarations);
    var fields := TagOf(qname, attributes, ns, r.declarations).fields;
    DeclaredOnce(Rendering(rendered, []), ns, ps);
    SortDistinct(r.declarations);
    ConsiderAllEffect(Rendering(rendered, []), ns, ps);
    SortOrders(r.declarations);
    ListedFields(attributes, ns);
    assert forall i :: |lines| <= i < |fields| ==> fields[i] in Fields(Sort(AttributeLines(attributes, ns)));
    forall i | 0 <= i < |fields| && IsDeclaration(fields[i])
      ensures i < |lines| && fields[i].value != Bound(env, DeclaredPrefix(fields[i]))
    {
      assert lines[i] in r.declarations;
      assert CalledFor(lines[i], rendered, ns, ps);
      var p :| p in ps && Renderable(ns, p) && Bound(rendered, p) != Uri(ns, p)
        && lines[i] == Declaration(p, Uri(ns, p));
      DeclarationRead(ns, p, Uri(ns, p));
    }
  }

  /** Every declaration in the output is needed where it stands. */
  lemma {:induction false} CanonicalMinimal(nodes: seq<Node>, exclude: Option<nat>, inclusive: seq<string>,
                                            outer: seq<Namespace>, rendered: RenderedNs, env: RenderedNs)
    requires ValidScope(outer) && ValidNodes(nodes, outer) && SameBindings(rendered, env)
    requires AttributesPrefixed(nodes, exclude, outer)
    ensures Minimal(Canonical(nodes, exclude, inclusive, outer, rendered), env)
    decreases nodes
  {
    if nodes != [] {
      CanonicalMinimal(nodes[1..], exclude, inclusive, outer, rendered, env);
      if nodes[0].Element? && Some(nodes[0].id) != exclude {
        var Element(_, qname, own, attributes, children) := nodes[0];
        var ns := InScope(own, outer);
        var r := Rendered(qname, attributes, ns, inclusive, rendered);
        var tag := TagOf(qname, attributes, ns, r.declarations);
        InScopeValid(own, outer);
        TagMinimal(qname, attributes, ns, inclusive, rendered, env);
        HeadReadBack(qname, attributes, ns, inclusive, rendered, env);
        CanonicalMinimal(children, exclude, inclusive, ns, r.scope, ReadDeclarations(env, tag.fields));
      }
    }
  }

  // ------------------------------------------------------ exclusion prunes

  /** The siblings without any node of this id, at any depth. */
  function Prune(nodes: seq<Node>, id: nat): seq<Node> {
    if nodes == [] then []
    else if nodes[0].id == id then Prune(nodes[1..], id)
    else [PruneNode(nodes[0], id)] + Prune(nodes[1..], id)
  }

  function PruneNode(node: Node, id: nat): Node {
    match node
    case Element(i, qname, own, attributes, children) => Element(i, qname, own, attributes, Prune(children, id))
    case _ => node
  }

  /** Canonicalizing with a node excluded is canonicalizing the tree without it. */
  lemma {:induction false} ExclusionPrunes(nodes: seq<Node>, id: nat, inclusive: seq<string>,
                                           outer: seq<Namespace>, rendered: RenderedNs)
    ensures Canonical(nodes, Some(id), inclusive, outer, rendered)
         == Canonical(Prune(nodes, id), None, inclusive, outer, rendered)
    decreases nodes
  {
    if nodes != [] {
      ExclusionPrunes(nodes[1..], id, inclusive, outer, rendered);
      if nodes[0].id != id {
        var pruned := Prune(nodes, id);
        assert pruned[1..] == Prune(nodes[1..], id);
        if nodes[0].Element? {
          var ns := InScope(nodes[0].own, outer);
          var r := Rendered(nodes[0].qname, nodes[0].attributes, ns, inclusive, rendered);
          ExclusionPrunes(nodes[0].children, id, inclusive, ns, r.scope);
        }
      }
    }
  }

  // -------------------------------------------------- attribute order

  /** The same nodes with attributes possibly listed in another order. */
  ghost predicate Reordered(a: seq<Node>, b: seq<Node>) {
    |a| == |b| && (a == [] || (ReorderedNode(a[0], b[0]) && Reordered(a[1..], b[1..])))
  }

  ghost predicate ReorderedNode(a: Node, b: Node) {
    match (a, b)
    case (Element(i, q, o, s, c), Element(j, r, p, t, d)) =>
      i == j && q == r && o == p && multiset(s) == multiset(t) && Reordered(c, d)
    case _ => a == b
  }

  lemma {:induction false} AttributePrefixesMember(s: seq<Attribute>, ns: seq<Namespace>, p: Option<string>)
    ensures p in AttributePrefixes(s, ns)
            <==> exists a :: a in s && a.namespace.Some? && LookupPrefix(ns, a.namespace.value).Some?
                             && p == LookupPrefix(ns, a.namespace.value)
  {
    if s != [] {
      AttributePrefixesMember(s[1..], ns, p);
      assert s == [s[0]] + s[1..];
    }
  }

  lemma ConsideredReordered(qname: string, s: seq<Attribute>, t: seq<Attribute>, ns: seq<Namespace>,
                            inclusive: seq<string>, p: Option<string>)
    requires multiset(s) == multiset(t)
    ensures p in Considered(qname, s, ns, inclusive) <==> p in Considered(qname, t, ns, inclusive)
  {
    AttributePrefixesMember(s, ns, p);
    AttributePrefixesMember(t, ns, p);
    SameMembers(s, t);
  }

  lemma SameMembers(s: seq<Attribute>, t: seq<Attribute>)
    requires multiset(s) == multiset(t)
    ensures forall a :: a in s <==> a in t
  {
    forall a
      ensures a in s <==> a in t
    {
      assert a in s <==> a in multiset(s);
      assert a in t <==> a in multiset(t);
    }
  }

  /** The declarations of a tag depend only on which prefixes were considered. */
  lemma DeclarationsFromMembers(ps: seq<Option<string>>, qs: seq<Option<string>>, ns: seq<Namespace>,
                                a: RenderedNs, b: RenderedNs)
    requires ValidScope(ns) && SameBindings(a, b) && forall p :: p in ps <==> p in qs
    ensures var r, s := ConsiderAll(Rendering(a, []), ns, ps), ConsiderAll(Rendering(b, []), ns, qs);
            Sort(r.declarations) == Sort(s.declarations) && SameBindings(r.scope, s.scope)
  {
    var r, s := ConsiderAll(Rendering(a, []), ns, ps), ConsiderAll(Rendering(b, []), ns, qs);
    ConsiderAllEffect(Rendering(a, []), ns, ps);
    ConsiderAllEffect(Rendering(b, []), ns, qs);
    DeclaredOnce(Rendering(a, []), ns, ps);
    DeclaredOnce(Rendering(b, []), ns, qs);
    forall l
      ensures l in r.declarations <==> l in s.declarations
    {
      assert CalledFor(l, a, ns, ps) <==> CalledFor(l, b, ns, qs);
    }
    SameElementsSameMultiset(r.declarations, s.declarations);
    forall x, y | x in r.declarations && y in r.declarations && x.major == y.major
      ensures x == y
    {
      assert CalledFor(x, a, ns, ps) && CalledFor(y, a, ns, ps);
      var p :| p in ps && Renderable(ns, p) && x == Declaration(p, Uri(ns, p));
      var q :| q in ps && Renderable(ns, q) && y == Declaration(q, Uri(ns, q));
      DeclarationInjective(ns, p, q, Uri(ns, p), Uri(ns, q));
    }
    SortForgetsOrder(r.declarations, s.declarations);
  }

  predicate NoRepeats(s: seq<Line>) {
    forall i, j :: 0 <= i < j < |s| ==> s[i] != s[j]
  }

  lemma {:induction false} CountDistinct(s: seq<Line>, l: Line)
    requires NoRepeats(s)
    ensures multiset(s)[l] == if l in s then 1 else 0
  {
    if s != [] {
      CountDistinct(s[1..], l);
      assert s == [s[0]] + s[1..];
    }
  }

  lemma SameElementsSameMultiset(s: seq<Line>, t: seq<Line>)
    requires NoRepeats(s) && NoRepeats(t) && forall l :: l in s <==> l in t
    ensures multiset(s) == multiset(t)
  {
    forall l
      ensures multiset(s)[l] == multiset(t)[l]
    {
      CountDistinct(s, l);
      CountDistinct(t, l);
    }
  }

  predicate DistinctAttributes(s: seq<Attribute>) {
    forall i, j :: 0 <= i < j < |s| ==> (s[i].namespace, s[i].name) != (s[j].namespace, s[j].name)
  }

  lemma AttributeLinesDistinct(s: seq<Attribute>, ns: seq<Namespace>)
    requires DistinctAttributes(s) && forall x <- s :: ValidAttribute(x)
    ensures NoRepeats(AttributeLines(s, ns)) && Keyed(AttributeLines(s, ns))
  {
    var lines := AttributeLines(s, ns);
    forall i, j | 0 <= i < j < |lines|
      ensures lines[i].major != lines[j].major || lines[i].minor != lines[j].minor
    {
      assert s[i] in s && s[j] in s;
    }
  }

  lemma AttributeLinesReordered(s: seq<Attribute>, t: seq<Attribute>, ns: seq<Namespace>)
    requires multiset(s) == multiset(t) && DistinctAttributes(s) && DistinctAttributes(t)
    requires (forall x <- s :: ValidAttribute(x)) && forall x <- t :: ValidAttribute(x)
    ensures Sort(AttributeLines(s, ns)) == Sort(AttributeLines(t, ns))
  {
    SameMembers(s, t);
    AttributeLinesDistinct(s, ns);
    AttributeLinesDistinct(t, ns);
    AttributeLinesMembers(s, t, ns);
    AttributeLinesMembers(t, s, ns);
    SameElementsSameMultiset(AttributeLines(s, ns), AttributeLines(t, ns));
    SortForgetsOrder(AttributeLines(s, ns), AttributeLines(t, ns));
  }

  lemma AttributeLinesMembers(s: seq<Attribute>, t: seq<Attribute>, ns: seq<Namespace>)
    requires forall a :: a in s ==> a in t
    ensures forall l :: l in AttributeLines(s, ns) ==> l in AttributeLines(t, ns)
  {
    forall l | l in AttributeLines(s, ns)
      ensures l in AttributeLines(t, ns)
    {
      var i :| 0 <= i < |s| && AttributeLines(s, ns)[i] == l;
      assert s[i] in t;
      var j :| 0 <= j < |t| && t[j] == s[i];
      assert AttributeLines(t, ns)[j] == l;
    }
  }

  lemma TagReordered(qname: string, s: seq<Attribute>, t: seq<Attribute>, ns: seq<Namespace>, inclusive: seq<string>,
                     a: RenderedNs, b: RenderedNs)
    requires ValidScope(ns) && multiset(s) == multiset(t) && SameBindings(a, b)
    requires (forall x <- s :: ValidAttribute(x)) && forall x <- t :: ValidAttribute(x)
    requires DistinctAttributes(s) && DistinctAttributes(t)
    ensures var r, q := Rendered(qname, s, ns, inclusive, a), Rendered(qname, t, ns, inclusive, b);
            TagOf(qname, s, ns, r.declarations) == TagOf(qname, t, ns, q.declarations) && SameBindings(r.scope, q.scope)
  {
    forall p
      ensures p in Considered(qname, s, ns, inclusive) <==> p in Considered(qname, t, ns, inclusive)
    {
      ConsideredReordered(qname, s, t, ns, inclusive, p);
    }
    DeclarationsFromMembers(Considered(qname, s, ns, inclusive), Considered(qname, t, ns, inclusive), ns, a, b);
    AttributeLinesReordered(s, t, ns);
  }

  /** Documents that differ only in the order of attributes have one canonical form. */
  lemma {:induction false} AttributeOrderIrrelevant(a: seq<Node>, b: seq<Node>, exclude: Option<nat>,
                                                    inclusive: seq<string>,
                                                    outer: seq<Namespace>, ra: RenderedNs, rb: RenderedNs)
    requires ValidScope(outer) && ValidNodes(a, outer) && ValidNodes(b, outer) && Reordered(a, b)
             && SameBindings(ra, rb)
    ensures Canonical(a, exclude, inclusive, outer, ra) == Canonical(b, exclude, inclusive, outer, rb)
    decreases a
  {
    if a != [] {
      AttributeOrderIrrelevant(a[1..], b[1..], exclude, inclusive, outer, ra, rb);
      if a[0].Element? {
        var ns := InScope(a[0].own, outer);
        InScopeValid(a[0].own, outer);
        var r := Rendered(a[0].qname, a[0].attributes, ns, inclusive, ra);
        var s := Rendered(a[0].qname, b[0].attributes, ns, inclusive, rb);
        TagReordered(a[0].qname, a[0].attributes, b[0].attributes, ns, inclusive, ra, rb);
        AttributeOrderIrrelevant(a[0].children, b[0].children, exclude, inclusive, ns, r.scope, s.scope);
      }
    }
  }
}
