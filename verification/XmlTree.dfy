/**
  The parsed document as the canonicalizer sees it through roxmltree: nodes with
  an id, elements with their qualified name as written, the namespace
  declarations they carry themselves, attributes with a resolved namespace, and
  children in document order.
 */
module XmlTree {
  import opened Options

  const XML_NAMESPACE := "http://www.w3.org/XML/1998/namespace"

  datatype Namespace = Namespace(prefix: Option<string>, uri: string)

  datatype Attribute = Attribute(namespace: Option<string>, name: string, value: string)

  datatype Node =
    | Text(id: nat, text: string)
    | Instruction(id: nat, target: string, value: Option<string>)
    | Comment(id: nat)
    | Element(id: nat, qname: string, own: seq<Namespace>, attributes: seq<Attribute>, children: seq<Node>)

  // ------------------------------------------------------------ namespaces

  predicate Declares(own: seq<Namespace>, prefix: Option<string>) {
    exists n <- own :: n.prefix == prefix
  }

  /** The part of an outer scope that `own` does not redeclare, in order. */
  function Inherited(own: seq<Namespace>, outer: seq<Namespace>): seq<Namespace> {
    if outer == [] then []
    else (if Declares(own, outer[0].prefix) then [] else [outer[0]]) + Inherited(own, outer[1..])
  }

  /** `node.namespaces()`: own declarations first, then the inherited ones. */
  function InScope(own: seq<Namespace>, outer: seq<Namespace>): seq<Namespace> {
    own + Inherited(own, outer)
  }

  /** `lookup_namespace_uri`: the first namespace with this prefix. */
  function LookupUri(scope: seq<Namespace>, prefix: Option<string>): Option<string> {
    if scope == [] then None
    else if scope[0].prefix == prefix then Some(scope[0].uri)
    else LookupUri(scope[1..], prefix)
  }

  /**
    `lookup_prefix`: the prefix of the first namespace with this URI. When that
    first namespace is the default one there is no prefix, even if a later
    declaration binds the same URI to a prefix.
   */
  function LookupPrefix(scope: seq<Namespace>, uri: string): Option<string> {
    if uri == XML_NAMESPACE then Some("xml")
    else if scope == [] then None
    else if scope[0].uri == uri then scope[0].prefix
    else LookupPrefix(scope[1..], uri)
  }

  // ---------------------------------------------------------------- names

  /** Characters that no XML name contains. The colon is a name character. */
  predicate NameStop(c: char) {
    || c == ' ' || c == '\t' || c == '\r' || c == '\n' || c == '<' || c == '>'
    || c == '/' || c == '=' || c == '"' || c == '\'' || c == '&' || c == '?'
  }

  predicate IsName(s: string) {
    s != "" && forall c <- s :: !NameStop(c)
  }

  predicate IsNcName(s: string) {
    IsName(s) && ':' !in s
  }

  /** `qname.split(':').next()`, present only when there is a colon. */
  function Prefix(qname: string): Option<string> {
    if ':' in qname then Some(qname[..ColonAt(qname)]) else None
  }

  function Local(qname: string): string {
    if ':' in qname then qname[ColonAt(qname) + 1..] else qname
  }

  function ColonAt(s: string): (i: nat)
    requires ':' in s
    ensures i < |s| && s[i] == ':' && ':' !in s[..i]
  {
    if s[0] == ':' then 0 else
      assert s == [s[0]] + s[1..];
      var i := 1 + ColonAt(s[1..]);
      assert s[..i] == [s[0]] + s[1..][..i - 1];
      i
  }

  lemma PrefixedName(prefix: string, local: string)
    requires ':' !in prefix
    ensures Prefix(prefix + ":" + local) == Some(prefix)
    ensures Local(prefix + ":" + local) == local
  {
    var q := prefix + ":" + local;
    assert q[|prefix|] == ':';
    var i := ColonAt(q);
    assert forall k :: 0 <= k < i ==> q[..i][k] == q[k];
    assert q[..|prefix|] == prefix && q[|prefix| + 1..] == local;
  }

  // ------------------------------------------------ what the parser promises

  /** A declaration a namespace-aware parser accepts and keeps. */
  predicate ValidNamespace(n: Namespace) {
    && (n.prefix.Some? ==> IsNcName(n.prefix.value) && n.prefix.value !in ["xml", "xmlns"] && n.uri != "")
    && n.uri != XML_NAMESPACE
  }

  predicate ValidScope(scope: seq<Namespace>) {
    && (forall n <- scope :: ValidNamespace(n))
    && forall i, j :: 0 <= i < j < |scope| ==> scope[i].prefix != scope[j].prefix
  }

  predicate ValidAttribute(a: Attribute) {
    && IsNcName(a.name)
    && (a.namespace.None? ==> a.name != "xmlns")
    && a.namespace != Some("")
  }

  predicate ClosesInstruction(s: string) {
    exists i :: 0 <= i < |s| - 1 && s[i] == '?' && s[i + 1] == '>'
  }

  /** An element name whose prefix, if any, is bound. */
  predicate ValidElementName(qname: string, scope: seq<Namespace>) {
    && IsName(qname)
    && match Prefix(qname)
       case None => true
       case Some(p) => p == "xml" || (p != "xmlns" && LookupUri(scope, Some(p)).Some?)
  }

  /** Well-formed sibling nodes under the in-scope namespaces `outer`. */
  predicate ValidNodes(nodes: seq<Node>, outer: seq<Namespace>) {
    nodes == [] || (ValidNode(nodes[0], outer) && ValidNodes(nodes[1..], outer))
  }

  predicate ValidNode(node: Node, outer: seq<Namespace>) {
    match node
    case Text(_, _) => true
    case Comment(_) => true
    case Instruction(_, target, value) =>
      IsName(target) && (value.Some? ==> !ClosesInstruction(value.value))
    case Element(_, qname, own, attributes, children) =>
      && ValidScope(own)
      && ValidElementName(qname, InScope(own, outer))
      && (forall a <- attributes :: ValidAttribute(a))
      && (forall i, j :: 0 <= i < j < |attributes| ==>
            (attributes[i].namespace, attributes[i].name) != (attributes[j].namespace, attributes[j].name))
      && ValidNodes(children, InScope(own, outer))
  }

  // ---------------------------------------------------- facts about scopes

  lemma InheritedFacts(own: seq<Namespace>, outer: seq<Namespace>)
    requires ValidScope(outer)
    ensures ValidScope(Inherited(own, outer))
    ensures forall n <- Inherited(own, outer) :: n in outer && !Declares(own, n.prefix)
  {
    if outer != [] {
      InheritedFacts(own, outer[1..]);
      var rest := Inherited(own, outer[1..]);
      forall n | n in rest
        ensures n.prefix != outer[0].prefix
      {
        var k :| 0 <= k < |outer[1..]| && outer[1..][k] == n;
        assert outer[k + 1] == n;
      }
    }
  }

  lemma InScopeValid(own: seq<Namespace>, outer: seq<Namespace>)
    requires ValidScope(own) && ValidScope(outer)
    ensures ValidScope(InScope(own, outer))
  {
    InheritedFacts(own, outer);
    var inherited := Inherited(own, outer);
    var s := InScope(own, outer);
    forall i, j | 0 <= i < j < |s|
      ensures s[i].prefix != s[j].prefix
    {
      if i < |own| <= j {
        assert inherited[j - |own|] in inherited;
        assert own[i] in own;
      }
    }
  }

  lemma {:induction false} NothingOwn(outer: seq<Namespace>)
    ensures InScope([], outer) == outer
  {
    if outer != [] {
      NothingOwn(outer[1..]);
    }
  }

  lemma LookupUriMember(scope: seq<Namespace>, prefix: Option<string>)
    ensures LookupUri(scope, prefix).Some? ==> Namespace(prefix, LookupUri(scope, prefix).value) in scope
    ensures LookupUri(scope, prefix).Some? <==> Declares(scope, prefix)
  {
    if scope != [] && scope[0].prefix != prefix {
      LookupUriMember(scope[1..], prefix);
      assert scope == [scope[0]] + scope[1..];
    }
  }

  lemma MemberLookup(scope: seq<Namespace>, n: Namespace)
    requires ValidScope(scope) && n in scope
    ensures LookupUri(scope, n.prefix) == Some(n.uri)
  {
    if scope[0] != n {
      assert n in scope[1..];
      var k :| 0 <= k < |scope| && scope[k] == n;
      assert scope[0].prefix != scope[k].prefix;
      MemberLookup(scope[1..], n);
    }
  }

  /** `lookup_namespace_uri` answers from the first namespace with the prefix. */
  lemma {:induction false} LookupUriFirst(scope: seq<Namespace>, prefix: Option<string>, i: nat)
    requires i < |scope| && scope[i].prefix == prefix && forall k :: 0 <= k < i ==> scope[k].prefix != prefix
    ensures LookupUri(scope, prefix) == Some(scope[i].uri)
  {
    if i > 0 {
      LookupUriFirst(scope[1..], prefix, i - 1);
    }
  }

  /** `lookup_prefix` answers from the first namespace with the URI, by no prefix if that is the default one. */
  lemma {:induction false} LookupPrefixFirst(scope: seq<Namespace>, uri: string, i: nat)
    requires uri != XML_NAMESPACE
    requires i < |scope| && scope[i].uri == uri && forall k :: 0 <= k < i ==> scope[k].uri != uri
    ensures LookupPrefix(scope, uri) == scope[i].prefix
  {
    if i > 0 {
      LookupPrefixFirst(scope[1..], uri, i - 1);
    }
  }

  lemma {:induction false} LookupPrefixNone(scope: seq<Namespace>, uri: string)
    requires uri != XML_NAMESPACE && forall n <- scope :: n.uri != uri
    ensures LookupPrefix(scope, uri) == None
  {
    if scope != [] {
      assert scope[0] in scope;
      LookupPrefixNone(scope[1..], uri);
    }
  }

  /**
    The namespaces in scope: an element's own first and in order, then those of the
    ancestors it does not redeclare, in their order.
   */
  lemma {:induction false} InScopeOrder(own: seq<Namespace>, outer: seq<Namespace>, i: nat)
    requires i < |outer|
    ensures InScope(own, outer)[..|own|] == own
    ensures var before := Inherited(own, outer[..i]);
            && before <= Inherited(own, outer)
            && (if Declares(own, outer[i].prefix) then Inherited(own, outer[..i + 1]) == before
                else Inherited(own, outer[..i + 1]) == before + [outer[i]])
  {
    InheritedAppend(own, outer[..i], outer[i..]);
    InheritedAppend(own, outer[..i], [outer[i]]);
    assert outer == outer[..i] + outer[i..] && outer[..i + 1] == outer[..i] + [outer[i]];
    assert [outer[i]][1..] == [];
  }

  lemma {:induction false} InheritedAppend(own: seq<Namespace>, a: seq<Namespace>, b: seq<Namespace>)
    ensures Inherited(own, a + b) == Inherited(own, a) + Inherited(own, b)
  {
    if a == [] {
      assert a + b == b;
    } else {
      assert (a + b)[0] == a[0] && (a + b)[1..] == a[1..] + b;
      InheritedAppend(own, a[1..], b);
    }
  }

  /** The two lookups agree: a prefix found for a URI is bound to that URI. */
  lemma LookupPrefixSound(scope: seq<Namespace>, uri: string)
    requires ValidScope(scope) && uri != XML_NAMESPACE && LookupPrefix(scope, uri).Some?
    ensures LookupUri(scope, LookupPrefix(scope, uri)) == Some(uri)
    ensures Namespace(LookupPrefix(scope, uri), uri) in scope
  {
    if scope[0].uri != uri {
      LookupPrefixSound(scope[1..], uri);
      assert Namespace(LookupPrefix(scope, uri), uri) in scope[1..];
    }
    MemberLookup(scope, Namespace(LookupPrefix(scope, uri), uri));
  }
}
