/**
  What acceptance means. Two accepted elements whose signatures cover the same
  bytes have the same content outside the signature unless the hash collides, and
  the reference designates the verified element and no other.
 */
module XmlSignatureLaws {
  import opened Options
  import opened XmlTree
  import opened ExcC14n
  import opened ExcC14nNamespaces
  import opened ExcC14nParser
  import opened ExcC14nFidelity
  import opened Sequences
  import opened XmlSignature

  // --------------------------------------- reading through the infoset

  /** What canonicalization preserves of an element's content. */
  function ContentOf(p: Place): Content<Expanded> {
    Merge(Infoset(p.Children(), None, p.Inner()))
  }

  /** `ds_child` on preserved content. */
  function FirstDs(c: Content<Expanded>, name: string): Option<Content<Expanded>> {
    match c
    case End => None
    case Run(_, next) => FirstDs(next, name)
    case Pi(_, _, next) => FirstDs(next, name)
    case Elem(head, children, next) =>
      if head.uri == NS_DSIG && head.local == name then Some(children) else FirstDs(next, name)
  }

  lemma {:induction false} FirstDsMerge(c: Content<Expanded>, name: string)
    ensures FirstDs(Merge(c), name)
         == match FirstDs(c, name) case None => None case Some(children) => Some(Merge(children))
  {
    match c
    case End =>
    case Run(_, next) => FirstDsMerge(next, name);
    case Pi(_, _, next) => FirstDsMerge(next, name);
    case Elem(_, _, next) => FirstDsMerge(next, name);
  }

  lemma {:induction false} FirstDsInfoset(nodes: seq<Node>, outer: seq<Namespace>, name: string)
    ensures FirstDs(Infoset(nodes, None, outer), name)
         == var found := DsElements(nodes, outer, name);
            if found == [] then None
            else Some(Infoset(Place(found[0], outer).Children(), None, Place(found[0], outer).Inner()))
  {
    if nodes != [] {
      FirstDsInfoset(nodes[1..], outer, name);
      EmptyLeft(DsElements(nodes[1..], outer, name));
    }
  }

  lemma FirstDsSurvives(nodes: seq<Node>, outer: seq<Namespace>, name: string)
    ensures FirstDs(Merge(Infoset(nodes, None, outer)), name)
         == var found := DsElements(nodes, outer, name);
            if found == [] then None else Some(ContentOf(Place(found[0], outer)))
  {
    FirstDsInfoset(nodes, outer, name);
    FirstDsMerge(Infoset(nodes, None, outer), name);
  }

  /** Equal preserved content leads `ds_child` to equal preserved content. */
  lemma SameChild(a: Place, b: Place, name: string)
    requires ContentOf(a) == ContentOf(b) && DsChild(a, name).Pass? && DsChild(b, name).Pass?
    ensures ContentOf(DsChild(a, name).value) == ContentOf(DsChild(b, name).value)
  {
    FirstDsSurvives(a.Children(), a.Inner(), name);
    FirstDsSurvives(b.Children(), b.Inner(), name);
  }

  function FirstRun(c: Content<Expanded>): string {
    if c.Run? then c.text else ""
  }

  /** `text()` may see less than what is signed, when a comment follows, but never something else. */
  lemma TextIsPrefix(p: Place)
    requires FirstText(p.node).Some?
    ensures FirstText(p.node).value <= FirstRun(ContentOf(p))
  {
    var rest := Infoset(p.Children()[1..], None, p.Inner());
    assert Infoset(p.Children(), None, p.Inner()) == Run(FirstText(p.node).value, rest);
  }

  lemma {:induction false} CompactPrefix(a: string, b: string)
    requires a <= b
    ensures Compact(a) <= Compact(b)
  {
    if a != "" {
      CompactPrefix(a[1..], b[1..]);
    }
  }

  // -------------------------------------------------------------- soundness

  /** SHA-256 digests are 32 bytes, and base64 of 32 bytes is 44 characters (section 4 of RFC 4648). */
  ghost predicate Sized(crypto: Crypto) {
    && (forall s :: |crypto.digest(s)| == 32)
    && (forall s :: crypto.base64(s).Some? && |crypto.base64(s).value| == 32 ==> |s| == 44)
  }

  /** Two readings of the same preserved digest value that decode to a digest agree. */
  lemma SameDigestValue(crypto: Crypto, a: Place, b: Place)
    requires Sized(crypto) && ContentOf(a) == ContentOf(b)
    requires DecodedText(crypto, a.node).Pass? && |DecodedText(crypto, a.node).value| == 32
    requires DecodedText(crypto, b.node).Pass? && |DecodedText(crypto, b.node).value| == 32
    ensures DecodedText(crypto, a.node) == DecodedText(crypto, b.node)
  {
    var s, t := FirstText(a.node).value, FirstText(b.node).value;
    TextIsPrefix(a);
    TextIsPrefix(b);
    var whole := FirstRun(ContentOf(a));
    CompactPrefix(s, whole);
    CompactPrefix(t, whole);
    assert Compact(s) == Compact(whole)[..44] == Compact(t);
  }

  /** The element holding the digest of an accepted signature. */
  function DigestElement(parts: Parts): Check<Place> {
    var reference :- DsChild(parts.info, "Reference");
    DsChild(reference, "DigestValue")
  }

  /** The reference names the element by an ID that occurs once, and holds the digest that is compared. */
  lemma AcceptedReference(crypto: Crypto, document: seq<Node>, element: Place, reference: Place)
    requires ReadReference(crypto, document, element, reference).Pass?
    ensures AttributeValue(element.node, "ID").Some?
    ensures AttributeValue(reference.node, "URI") == Some("#" + AttributeValue(element.node, "ID").value)
    ensures Occurrences(document, AttributeValue(element.node, "ID").value) == 1
    ensures DsChild(reference, "DigestValue").Pass?
    ensures DecodedText(crypto, DsChild(reference, "DigestValue").value.node)
         == Pass(ReadReference(crypto, document, element, reference).value.1)
  {
    var uri := AttributeValue(reference.node, "URI").GetOr("");
    assert uri == "#" + uri[1..];
  }

  lemma AcceptedOnlyReference(crypto: Crypto, document: seq<Node>, element: Place, info: Place)
    requires ReadOnlyReference(crypto, document, element, info).Pass?
    ensures |DsElements(info.Children(), info.Inner(), "Reference")| == 1 && DsChild(info, "Reference").Pass?
    ensures ReadReference(crypto, document, element, DsChild(info, "Reference").value)
         == ReadOnlyReference(crypto, document, element, info)
  {
  }

  lemma AcceptedInfo(crypto: Crypto, document: seq<Node>, element: Place, signature: Place, info: Place)
    requires ReadSignedInfo(crypto, document, element, signature, info).Pass?
    ensures var parts := ReadSignedInfo(crypto, document, element, signature, info).value;
            && parts.signature == signature && parts.info == info
            && ReadOnlyReference(crypto, document, element, info)
               == Pass((parts.referencePrefixes, parts.digestValue))
  {
  }

  lemma AcceptedParts(crypto: Crypto, document: seq<Node>, element: Place)
    requires ReadSignature(crypto, document, element).Pass?
    ensures var parts := ReadSignature(crypto, document, element).value;
            && DsChild(element, "Signature") == Pass(parts.signature)
            && DsChild(parts.signature, "SignedInfo") == Pass(parts.info)
            && ReadSignedInfo(crypto, document, element, parts.signature, parts.info) == Pass(parts)
  {
    var signature := DsChild(element, "Signature").value;
    AcceptedInfo(crypto, document, element, signature, DsChild(signature, "SignedInfo").value);
  }

  /**
    What acceptance has checked: the signature is a direct child, its only
    reference points at this element by an ID nothing else carries, and the digest
    it holds is that of the canonical content.
   */
  lemma AcceptedDigest(crypto: Crypto, document: seq<Node>, element: Place)
    requires Verify(crypto, document, element).Pass?
    ensures var parts := Verify(crypto, document, element).value;
            && DsChild(element, "Signature") == Pass(parts.signature)
            && DsChild(parts.signature, "SignedInfo") == Pass(parts.info)
            && |DsElements(parts.info.Children(), parts.info.Inner(), "Reference")| == 1
            && DsChild(parts.info, "Reference").Pass?
            && DigestElement(parts).Pass?
            && DecodedText(crypto, DigestElement(parts).value.node)
               == Pass(crypto.digest(SignedContent(element, parts)))
    ensures var reference := DsChild(Verify(crypto, document, element).value.info, "Reference").value;
            && AttributeValue(element.node, "ID").Some?
            && AttributeValue(reference.node, "URI") == Some("#" + AttributeValue(element.node, "ID").value)
            && Occurrences(document, AttributeValue(element.node, "ID").value) == 1
  {
    VerifyKeepsParts(crypto, document, element);
    AcceptedParts(crypto, document, element);
    var parts := ReadSignature(crypto, document, element).value;
    AcceptedInfo(crypto, document, element, parts.signature, parts.info);
    AcceptedOnlyReference(crypto, document, element, parts.info);
    AcceptedReference(crypto, document, element, DsChild(parts.info, "Reference").value);
  }

  lemma VerifyKeepsParts(crypto: Crypto, document: seq<Node>, element: Place)
    requires Verify(crypto, document, element).Pass?
    ensures Verify(crypto, document, element) == ReadSignature(crypto, document, element)
    ensures var parts := Verify(crypto, document, element).value;
            crypto.digest(SignedContent(element, parts)) == parts.digestValue
  {
  }

  /** What the parser promises of an element in place. */
  predicate WellFormed(p: Place) {
    p.node.Element? && ValidScope(p.outer) && ValidNode(p.node, p.outer)
  }

  lemma {:induction false} DsElementsValid(nodes: seq<Node>, outer: seq<Namespace>, name: string)
    requires ValidNodes(nodes, outer)
    ensures forall n <- DsElements(nodes, outer, name) :: n.Element? && ValidNode(n, outer)
  {
    if nodes != [] {
      DsElementsValid(nodes[1..], outer, name);
    }
  }

  lemma ChildWellFormed(p: Place, name: string)
    requires WellFormed(p) && DsChild(p, name).Pass?
    ensures WellFormed(DsChild(p, name).value)
  {
    InScopeValid(p.node.own, p.outer);
    DsElementsValid(p.Children(), p.Inner(), name);
    var found := DsElements(p.Children(), p.Inner(), name);
    assert found[0] in found;
  }

  /** Every namespaced attribute under the signature, and in the content it covers, can be named. */
  predicate Nameable(element: Place, parts: Parts) {
    && AttributesPrefixed([element.node], Some(parts.signature.node.id), element.outer)
    && AttributesPrefixed([parts.info.node], None, parts.info.outer)
  }

  /** The signed content: the element's meaning without its signature. */
  function Meaning(element: Place, parts: Parts): Content<Expanded> {
    Merge(Infoset([element.node], Some(parts.signature.node.id), element.outer))
  }

  ghost predicate Collision(crypto: Crypto, a: string, b: string) {
    a != b && crypto.digest(a) == crypto.digest(b)
  }

  lemma SingleContent(p: Place)
    requires p.node.Element?
    ensures Merge(Infoset([p.node], None, p.outer))
         == Elem(SourceHead(p.node.qname, p.node.attributes, p.Inner()), ContentOf(p), End)
  {
    assert Infoset([p.node][1..], None, p.outer) == End;
  }

  lemma SameInfo(a: Parts, b: Parts)
    requires WellFormed(a.info) && AttributesPrefixed([a.info.node], None, a.info.outer)
    requires WellFormed(b.info) && AttributesPrefixed([b.info.node], None, b.info.outer)
    requires SignedBytes(a) == SignedBytes(b)
    ensures ContentOf(a.info) == ContentOf(b.info)
  {
    EqualStringsEqualMeaning(a.info.node, b.info.node, None, None, a.infoPrefixes, b.infoPrefixes, a.info.outer,
                             b.info.outer);
    SingleContent(a.info);
    SingleContent(b.info);
  }

  /**
    A verified signature pins the content: if two accepted elements, in whatever
    documents, carry signatures over the same bytes, then outside the signature
    they have the same names, attributes, text and child order, or the two
    digested strings collide.
   */
  lemma SameBytesSameMeaning(crypto: Crypto, docE: seq<Node>, e: Place, docF: seq<Node>, f: Place)
    requires Sized(crypto) && WellFormed(e) && WellFormed(f)
    requires Verify(crypto, docE, e).Pass? && Nameable(e, Verify(crypto, docE, e).value)
    requires Verify(crypto, docF, f).Pass? && Nameable(f, Verify(crypto, docF, f).value)
    requires SignedBytes(Verify(crypto, docE, e).value) == SignedBytes(Verify(crypto, docF, f).value)
    ensures var a, b := Verify(crypto, docE, e).value, Verify(crypto, docF, f).value;
            Meaning(e, a) == Meaning(f, b) || Collision(crypto, SignedContent(e, a), SignedContent(f, b))
  {
    var a, b := Verify(crypto, docE, e).value, Verify(crypto, docF, f).value;
    AcceptedDigest(crypto, docE, e);
    AcceptedDigest(crypto, docF, f);
    ChildWellFormed(e, "Signature");
    ChildWellFormed(f, "Signature");
    ChildWellFormed(a.signature, "SignedInfo");
    ChildWellFormed(b.signature, "SignedInfo");
    SameInfo(a, b);
    SameChild(a.info, b.info, "Reference");
    SameChild(DsChild(a.info, "Reference").value, DsChild(b.info, "Reference").value, "DigestValue");
    SameDigestValue(crypto, DigestElement(a).value, DigestElement(b).value);
    if SignedContent(e, a) == SignedContent(f, b) {
      EqualStringsEqualMeaning(e.node, f.node, Some(a.signature.node.id), Some(b.signature.node.id),
                               a.referencePrefixes, b.referencePrefixes, e.outer, f.outer);
    }
  }

  // ------------------------------------------------- one element per ID

  /** All nodes below, in document order. */
  function Descendants(nodes: seq<Node>): seq<Node> {
    if nodes == [] then []
    else [nodes[0]] + (if nodes[0].Element? then Descendants(nodes[0].children) else []) + Descendants(nodes[1..])
  }

  function Carriers(nodes: seq<Node>, id: string): nat {
    if nodes == [] then 0 else (if AttributeValue(nodes[0], "ID") == Some(id) then 1 else 0) + Carriers(nodes[1..], id)
  }

  lemma {:induction false} CarriersAppend(a: seq<Node>, b: seq<Node>, id: string)
    ensures Carriers(a + b, id) == Carriers(a, id) + Carriers(b, id)
  {
    if a == [] {
      assert a + b == b;
    } else {
      assert (a + b)[1..] == a[1..] + b;
      CarriersAppend(a[1..], b, id);
    }
  }

  lemma {:induction false} OccurrencesCount(nodes: seq<Node>, id: string)
    ensures Occurrences(nodes, id) == Carriers(Descendants(nodes), id)
  {
    if nodes != [] {
      var below := if nodes[0].Element? then Descendants(nodes[0].children) else [];
      OccurrencesCount(nodes[1..], id);
      if nodes[0].Element? {
        OccurrencesCount(nodes[0].children, id);
      }
      CarriersAppend([nodes[0]], below, id);
      CarriersAppend([nodes[0]] + below, Descendants(nodes[1..]), id);
      assert Carriers([nodes[0]][1..], id) == 0;
    }
  }

  lemma {:induction false} CarrierCounted(nodes: seq<Node>, id: string, i: nat)
    requires i < |nodes| && AttributeValue(nodes[i], "ID") == Some(id)
    ensures Carriers(nodes, id) == 1 + Carriers(nodes[..i], id) + Carriers(nodes[i + 1..], id)
  {
    assert nodes == nodes[..i] + ([nodes[i]] + nodes[i + 1..]);
    CarriersAppend(nodes[..i], [nodes[i]] + nodes[i + 1..], id);
    assert ([nodes[i]] + nodes[i + 1..])[1..] == nodes[i + 1..];
  }

  lemma OneCarrier(nodes: seq<Node>, id: string, i: nat, j: nat)
    requires i < j < |nodes| && AttributeValue(nodes[i], "ID") == AttributeValue(nodes[j], "ID") == Some(id)
    ensures Carriers(nodes, id) >= 2
  {
    CarrierCounted(nodes, id, i);
    assert nodes[i + 1..][j - i - 1] == nodes[j];
    CarrierCounted(nodes[i + 1..], id, j - i - 1);
  }

  /** The reference of an accepted signature designates one node of the document only. */
  lemma ReferenceIsUnambiguous(crypto: Crypto, document: seq<Node>, element: Place, i: nat, j: nat)
    requires Verify(crypto, document, element).Pass?
    requires i < |Descendants(document)| && j < |Descendants(document)|
    requires Descendants(document)[i] == element.node
    requires AttributeValue(Descendants(document)[j], "ID") == AttributeValue(element.node, "ID")
    ensures i == j
  {
    AcceptedDigest(crypto, document, element);
    Unambiguous(document, AttributeValue(element.node, "ID").value, i, j);
  }

  lemma Unambiguous(document: seq<Node>, id: string, i: nat, j: nat)
    requires Occurrences(document, id) == 1
    requires i < |Descendants(document)| && j < |Descendants(document)|
    requires AttributeValue(Descendants(document)[i], "ID") == AttributeValue(Descendants(document)[j], "ID")
             == Some(id)
    ensures i == j
  {
    OccurrencesCount(document, id);
    if i != j {
      OneCarrier(Descendants(document), id, if i < j then i else j, if i < j then j else i);
    }
  }
}
