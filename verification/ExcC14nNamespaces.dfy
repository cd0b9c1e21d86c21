/**
  What the rendered declarations mean. The canonical output, read by a
  namespace-aware reader that sees nothing else, names every element and
  attribute as the source did; and no rendered declaration is redundant.
 */
module ExcC14nNamespaces {
  import opened Options
  import opened XmlTree
  import opened ExcC14n
  import opened ExcC14nSorting

  // --------------------------------------------- the effect of `consider`

  function Uri(ns: seq<Namespace>, prefix: Option<string>): string {
    LookupUri(ns, prefix).GetOr("")
  }

  /** The prefixes `consider` acts on. */
  predicate Renderable(ns: seq<Namespace>, prefix: Option<string>) {
    prefix != Some("xml") && prefix != Some("xmlns") && (prefix.None? || Uri(ns, prefix) != "")
  }

  lemma RenderablePrefix(ns: seq<Namespace>, prefix: Option<string>)
    requires ValidScope(ns) && Renderable(ns, prefix) && prefix.Some?
    ensures IsNcName(prefix.value)
  {
    LookupUriMember(ns, prefix);
  }

  ghost predicate SameBindings(a: RenderedNs, b: RenderedNs) {
    forall q :: Bound(a, q) == Bound(b, q)
  }

  lemma ConsiderEffect(r: Rendering, ns: seq<Namespace>, p: Option<string>)
    ensures var r' := Consider(r, ns, p);
            && (forall q :: Bound(r'.scope, q) == if q == p && Renderable(ns, p) then Uri(ns, p) else Bound(r.scope, q))
            && r'.declarations == r.declarations
                 + (if Renderable(ns, p) && Bound(r.scope, p) != Uri(ns, p) then [Declaration(p, Uri(ns, p))] else [])
  {
  }

  /** A declaration that the considered prefixes call for under inherited bindings `scope`. */
  ghost predicate CalledFor(line: Line, scope: RenderedNs, ns: seq<Namespace>, ps: seq<Option<string>>) {
    exists p :: p in ps && Renderable(ns, p) && Bound(scope, p) != Uri(ns, p) && line == Declaration(p, Uri(ns, p))
  }

  /** `consider` over a list: the bindings afterwards and exactly what was declared, each once. */
  lemma {:induction false} ConsiderAllEffect(r: Rendering, ns: seq<Namespace>, ps: seq<Option<string>>)
    requires ValidScope(ns)
    ensures var r' := ConsiderAll(r, ns, ps);
            && (forall q :: Bound(r'.scope, q)
                            == if q in ps && Renderable(ns, q) then Uri(ns, q) else Bound(r.scope, q))
            && (forall l :: l in r'.declarations <==> l in r.declarations || CalledFor(l, r.scope, ns, ps))
    decreases ps
  {
    if ps != [] {
      var r1 := Consider(r, ns, ps[0]);
      ConsiderEffect(r, ns, ps[0]);
      ConsiderAllEffect(r1, ns, ps[1..]);
      assert ps == [ps[0]] + ps[1..];
      forall l
        ensures CalledFor(l, r.scope, ns, ps) <==>
                CalledFor(l, r1.scope, ns, ps[1..]) || CalledFor(l, r.scope, ns, [ps[0]])
      {
        CalledForStep(l, r.scope, r1.scope, ns, ps);
      }
      assert forall l :: CalledFor(l, r.scope, ns, [ps[0]]) <==>
          Renderable(ns, ps[0]) && Bound(r.scope, ps[0]) != Uri(ns, ps[0]) && l == Declaration(ps[0], Uri(ns, ps[0]));
    }
  }

  lemma CalledForStep(l: Line, scope: RenderedNs, after: RenderedNs, ns: seq<Namespace>, ps: seq<Option<string>>)
    requires ps != []
    requires forall q :: Bound(after, q) == if q == ps[0] && Renderable(ns, q) then Uri(ns, q) else Bound(scope, q)
    ensures CalledFor(l, scope, ns, ps) <==> CalledFor(l, after, ns, ps[1..]) || CalledFor(l, scope, ns, [ps[0]])
  {
    if CalledFor(l, scope, ns, ps) {
      var p :| p in ps && Renderable(ns, p) && Bound(scope, p) != Uri(ns, p) && l == Declaration(p, Uri(ns, p));
      if p != ps[0] {
        assert p in ps[1..] && Bound(after, p) == Bound(scope, p);
      } else {
        assert p in [ps[0]];
      }
    }
    if CalledFor(l, after, ns, ps[1..]) {
      var p :| p in ps[1..] && Renderable(ns, p) && Bound(after, p) != Uri(ns, p) && l == Declaration(p, Uri(ns, p));
      assert p != ps[0] && p in ps;
    }
  }

  lemma DeclarationInjective(ns: seq<Namespace>, p: Option<string>, q: Option<string>, u: string, v: string)
    requires ValidScope(ns) && Renderable(ns, p) && Renderable(ns, q)
    ensures Declaration(p, u).name == Declaration(q, v).name ==> p == q
    ensures Declaration(p, u).major == Declaration(q, v).major ==> p == q
  {
    if p.Some? {
      RenderablePrefix(ns, p);
      assert ("xmlns:" + p.value)[6..] == p.value;
    }
    if q.Some? {
      RenderablePrefix(ns, q);
      assert ("xmlns:" + q.value)[6..] == q.value;
    }
  }

  predicate DistinctNames(lines: seq<Line>) {
    forall i, j :: 0 <= i < j < |lines| ==> lines[i].name != lines[j].name
  }

  /** Each declaration is pushed once. */
  lemma {:induction false} DeclaredOnce(r: Rendering, ns: seq<Namespace>, ps: seq<Option<string>>)
    requires ValidScope(ns)
    requires DistinctNames(r.declarations)
    requires forall l <- r.declarations ::
               exists p :: Renderable(ns, p) && Bound(r.scope, p) == Uri(ns, p) && l == Declaration(p, Uri(ns, p))
    ensures DistinctNames(ConsiderAll(r, ns, ps).declarations)
    decreases ps
  {
    if ps != [] {
      var p := ps[0];
      var r1 := Consider(r, ns, p);
      ConsiderEffect(r, ns, p);
      forall l | l in r1.declarations
        ensures exists q :: Renderable(ns, q) && Bound(r1.scope, q) == Uri(ns, q) && l == Declaration(q, Uri(ns, q))
        ensures l in r.declarations && r1.declarations != r.declarations ==> l.name != Declaration(p, Uri(ns, p)).name
      {
        if l in r.declarations {
          var q :| Renderable(ns, q) && Bound(r.scope, q) == Uri(ns, q) && l == Declaration(q, Uri(ns, q));
          assert Bound(r1.scope, q) == Uri(ns, q);
          if r1.declarations != r.declarations {
            DeclarationInjective(ns, p, q, Uri(ns, p), Uri(ns, q));
          }
        } else {
          assert Bound(r1.scope, p) == Uri(ns, p);
        }
      }
      DeclaredOnce(r1, ns, ps[1..]);
      assert ConsiderAll(r, ns, ps) == ConsiderAll(r1, ns, ps[1..]);
    }
  }

  // ------------------------------------------------- reading the output

  /** Namespace processing as a reader of the output does it. */
  predicate IsDeclaration(f: Field) {
    f.name == "xmlns" || "xmlns:" <= f.name
  }

  function DeclaredPrefix(f: Field): Option<string>
    requires IsDeclaration(f)
  {
    if f.name == "xmlns" then None else Some(f.name[6..])
  }

  function ReadDeclarations(env: RenderedNs, fields: seq<Field>): RenderedNs
    decreases fields
  {
    if fields == [] then env
    else ReadDeclarations(if IsDeclaration(fields[0]) then env[DeclaredPrefix(fields[0]) := fields[0].value] else env,
                          fields[1..])
  }

  function ReadAttribute(env: RenderedNs, f: Field): Attribute {
    match Prefix(f.name)
    case None => Attribute(None, f.name, f.value)
    case Some(p) => Attribute(Some(if p == "xml" then XML_NAMESPACE else Bound(env, Some(p))), Local(f.name), f.value)
  }

  function ReadAttributes(env: RenderedNs, fields: seq<Field>): multiset<Attribute> {
    if fields == [] then multiset{}
    else (if IsDeclaration(fields[0]) then multiset{} else multiset{ReadAttribute(env, fields[0])})
         + ReadAttributes(env, fields[1..])
  }

  /** An element with its names expanded; attributes carry no order. */
  datatype Expanded = Expanded(uri: string, local: string, attributes: multiset<Attribute>)

  function ElementUri(prefix: Option<string>, bound: string): string {
    if prefix == Some("xml") then XML_NAMESPACE else bound
  }

  function ReadHead(tag: Tag, inner: RenderedNs): Expanded {
    Expanded(ElementUri(Prefix(tag.name), Bound(inner, Prefix(tag.name))), Local(tag.name),
             ReadAttributes(inner, tag.fields))
  }

  function SourceHead(qname: string, attributes: seq<Attribute>, ns: seq<Namespace>): Expanded {
    Expanded(ElementUri(Prefix(qname), Uri(ns, Prefix(qname))), Local(qname), multiset(attributes))
  }

  function Resolve(c: Content<Tag>, env: RenderedNs): Content<Expanded>
    decreases c
  {
    match c
    case End => End
    case Run(text, next) => Run(text, Resolve(next, env))
    case Pi(target, value, next) => Pi(target, value, Resolve(next, env))
    case Elem(tag, children, next) =>
      var inner := ReadDeclarations(env, tag.fields);
      Elem(ReadHead(tag, inner), Resolve(children, inner), Resolve(next, env))
  }

  /** The source's own meaning of the same nodes, without comments and the excluded subtree. */
  function Infoset(nodes: seq<Node>, exclude: Option<nat>, outer: seq<Namespace>): Content<Expanded> {
    if nodes == [] then End
    else
      var next := Infoset(nodes[1..], exclude, outer);
      if Some(nodes[0].id) == exclude then next
      else match nodes[0]
           case Text(_, text) => Run(text, next)
           case Instruction(_, target, value) => Pi(target, value, next)
           case Comment(_) => next
           case Element(_, qname, own, attributes, children) =>
             var ns := InScope(own, outer);
             Elem(SourceHead(qname, attributes, ns), Infoset(children, exclude, ns), next)
  }

  /** An attribute whose namespace the writer can name with a prefix. */
  predicate Prefixed(a: Attribute, ns: seq<Namespace>) {
    a.namespace.Some? ==> LookupPrefix(ns, a.namespace.value).Some?
  }

  predicate AttributesPrefixed(nodes: seq<Node>, exclude: Option<nat>, outer: seq<Namespace>) {
    nodes == [] ||
    (&& AttributesPrefixed(nodes[1..], exclude, outer)
     && (nodes[0].Element? && Some(nodes[0].id) != exclude ==>
           var ns := InScope(nodes[0].own, outer);
           && (forall a <- nodes[0].attributes :: Prefixed(a, ns))
           && AttributesPrefixed(nodes[0].children, exclude, ns)))
  }

  // -------------------------------------- the reader recovers the bindings

  /** Lines that are declarations, at most one per prefix. */
  predicate DeclarationLines(lines: seq<Line>) {
    && (forall l <- lines :: IsDeclaration(Field(l.name, l.value)))
    && (forall a, b :: a in lines && b in lines && a.name == b.name ==> a == b)
  }

  ghost predicate DeclaresPrefix(lines: seq<Line>, q: Option<string>) {
    exists l :: l in lines && IsDeclaration(Field(l.name, l.value)) && DeclaredPrefix(Field(l.name, l.value)) == q
  }

  lemma DeclaredPrefixInjective(a: Field, b: Field)
    requires IsDeclaration(a) && IsDeclaration(b) && DeclaredPrefix(a) == DeclaredPrefix(b)
    ensures a.name == b.name
  {
    if a.name != "xmlns" {
      assert a.name == "xmlns:" + a.name[6..] && b.name == "xmlns:" + b.name[6..];
    }
  }

  lemma {:induction false} ReadDeclarationsEffect(env: RenderedNs, lines: seq<Line>, rest: seq<Field>)
    requires DeclarationLines(lines) && forall f <- rest :: !IsDeclaration(f)
    ensures var after := ReadDeclarations(env, Fields(lines) + rest);
            && (forall l <- lines :: Bound(after, DeclaredPrefix(Field(l.name, l.value))) == l.value)
            && (forall q :: !DeclaresPrefix(lines, q) ==> Bound(after, q) == Bound(env, q))
    decreases |lines| + |rest|
  {
    if lines != [] {
      var l := lines[0];
      var f := Field(l.name, l.value);
      var env1 := env[DeclaredPrefix(f) := f.value];
      assert l in lines;
      assert (Fields(lines) + rest)[0] == f;
      assert (Fields(lines) + rest)[1..] == Fields(lines[1..]) + rest;
      ReadDeclarationsEffect(env1, lines[1..], rest);
      var after := ReadDeclarations(env, Fields(lines) + rest);
      forall m | m in lines
        ensures Bound(after, DeclaredPrefix(Field(m.name, m.value))) == m.value
      {
        if m !in lines[1..] {
          assert m == l;
          assert !DeclaresPrefix(lines[1..], DeclaredPrefix(f)) by {
            forall k | k in lines[1..] && DeclaredPrefix(Field(k.name, k.value)) == DeclaredPrefix(f)
              ensures k == l
            {
              DeclaredPrefixInjective(Field(k.name, k.value), f);
            }
          }
        }
      }
      forall q | !DeclaresPrefix(lines, q)
        ensures Bound(after, q) == Bound(env, q)
      {
        assert q != DeclaredPrefix(f);
        assert !DeclaresPrefix(lines[1..], q);
      }
    } else if rest != [] {
      assert (Fields(lines) + rest)[1..] == Fields(lines) + rest[1..];
      ReadDeclarationsEffect(env, lines, rest[1..]);
    }
  }

  lemma NamesJoin(a: string, b: string)
    requires IsName(a) && IsName(b)
    ensures IsName(a + b)
  {
    assert forall c :: c in a + b ==> c in a || c in b;
  }

  lemma DeclarationRead(ns: seq<Namespace>, p: Option<string>, uri: string)
    requires ValidScope(ns) && Renderable(ns, p)
    ensures var f := Field(Declaration(p, uri).name, Declaration(p, uri).value);
            IsDeclaration(f) && DeclaredPrefix(f) == p && f.value == uri && IsName(f.name)
  {
    if p.Some? {
      RenderablePrefix(ns, p);
      assert ("xmlns:" + p.value)[6..] == p.value;
      NamesJoin("xmlns:", p.value);
    }
  }

  /** The declarations of one element, sorted or not, and what a reader makes of them. */
  lemma RenderedRead(ps: seq<Option<string>>, ns: seq<Namespace>, rendered: RenderedNs, env: RenderedNs,
                     lines: seq<Line>, rest: seq<Field>)
    requires ValidScope(ns) && SameBindings(rendered, env)
    requires lines == Sort(ConsiderAll(Rendering(rendered, []), ns, ps).declarations)
    requires forall f <- rest :: !IsDeclaration(f)
    ensures DeclarationLines(lines)
    ensures forall l :: l in lines <==> CalledFor(l, rendered, ns, ps)
    ensures SameBindings(ReadDeclarations(env, Fields(lines) + rest),
                         ConsiderAll(Rendering(rendered, []), ns, ps).scope)
  {
    var r := ConsiderAll(Rendering(rendered, []), ns, ps);
    ConsiderAllEffect(Rendering(rendered, []), ns, ps);
    SortOrders(r.declarations);
    RenderedDeclarationLines(lines, rendered, ns, ps);
    ReadDeclarationsEffect(env, lines, rest);
    forall q
      ensures Bound(ReadDeclarations(env, Fields(lines) + rest), q) == Bound(r.scope, q)
    {
      ReadOne(q, lines, rendered, ns, ps);
    }
  }

  lemma RenderedDeclarationLines(lines: seq<Line>, rendered: RenderedNs, ns: seq<Namespace>, ps: seq<Option<string>>)
    requires ValidScope(ns)
    requires forall l :: l in lines <==> CalledFor(l, rendered, ns, ps)
    ensures DeclarationLines(lines)
  {
    forall l | l in lines
      ensures IsDeclaration(Field(l.name, l.value))
    {
      var p :| p in ps && Renderable(ns, p) && l == Declaration(p, Uri(ns, p));
      DeclarationRead(ns, p, Uri(ns, p));
    }
    forall a, b | a in lines && b in lines && a.name == b.name
      ensures a == b
    {
      var p :| p in ps && Renderable(ns, p) && a == Declaration(p, Uri(ns, p));
      var q :| q in ps && Renderable(ns, q) && b == Declaration(q, Uri(ns, q));
      DeclarationInjective(ns, p, q, Uri(ns, p), Uri(ns, q));
    }
  }

  /** Either the reader sees a declaration of `q`, which then is the considered URI, or none was called for. */
  lemma ReadOne(q: Option<string>, lines: seq<Line>, rendered: RenderedNs, ns: seq<Namespace>, ps: seq<Option<string>>)
    requires ValidScope(ns)
    requires forall l :: l in lines <==> CalledFor(l, rendered, ns, ps)
    ensures !DeclaresPrefix(lines, q) ==>
              !(q in ps && Renderable(ns, q)) || Uri(ns, q) == Bound(rendered, q)
    ensures DeclaresPrefix(lines, q) ==>
              && q in ps && Renderable(ns, q)
              && exists l :: l in lines && IsDeclaration(Field(l.name, l.value))
                      && DeclaredPrefix(Field(l.name, l.value)) == q && l.value == Uri(ns, q)
  {
    if q in ps && Renderable(ns, q) && Uri(ns, q) != Bound(rendered, q) {
      var l := Declaration(q, Uri(ns, q));
      DeclarationRead(ns, q, Uri(ns, q));
      assert CalledFor(l, rendered, ns, ps);
    }
    if DeclaresPrefix(lines, q) {
      var l :| l in lines && IsDeclaration(Field(l.name, l.value)) && DeclaredPrefix(Field(l.name, l.value)) == q;
      var p :| p in ps && Renderable(ns, p) && l == Declaration(p, Uri(ns, p));
      DeclarationRead(ns, p, Uri(ns, p));
    }
  }
}
