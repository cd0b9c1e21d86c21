/**
  The two sides of a signature together: whatever a verifier accepts under bytes
  that a signer signed has the meaning of the element that was signed.
 */
module XmlTrust {
  import opened Options
  import opened XmlTree
  import opened ExcC14n
  import opened ExcC14nNamespaces
  import opened ExcC14nParser
  import opened ExcC14nFidelity
  import opened XmlSignature
  import opened XmlSignatureLaws
  import opened XmlSigning

  // --------------------------------------- a built signature is well formed

  /** Nodes that a parser could have produced and whose attributes can all be named. */
  predicate Sound(nodes: seq<Node>, outer: seq<Namespace>) {
    ValidNodes(nodes, outer) && AttributesPrefixed(nodes, None, outer)
  }

  predicate PlainAttributes(attributes: seq<Attribute>) {
    |attributes| <= 1 && forall a <- attributes :: a.namespace.None? && ValidAttribute(a)
  }

  lemma SoundCons(node: Node, rest: seq<Node>, outer: seq<Namespace>)
    requires Sound([node], outer) && Sound(rest, outer)
    ensures Sound([node] + rest, outer)
  {
    assert ([node] + rest)[1..] == rest;
  }

  lemma SoundDs(name: string, attributes: seq<Attribute>, children: seq<Node>, outer: seq<Namespace>)
    requires BindsDs(outer) && IsNcName(name) && PlainAttributes(attributes) && Sound(children, outer)
    ensures Sound([Ds(name, attributes, children)], outer)
  {
    var node := Ds(name, attributes, children);
    NothingOwn(outer);
    DsNames(name);
    NamesJoin("ds:", name);
    assert ValidElementName(node.qname, outer);
    assert [node][1..] == [];
  }

  lemma SoundText(text: string, outer: seq<Namespace>)
    ensures Sound([Text(0, text)], outer)
  {
    assert [Text(0, text)][1..] == [];
  }

  lemma PlainAlgorithm(uri: string)
    ensures PlainAttributes(Algorithm(uri))
  {
    assert IsNcName("Algorithm");
  }

  lemma SoundEmpty(name: string, uri: string, outer: seq<Namespace>)
    requires BindsDs(outer) && IsNcName(name)
    ensures Sound([Ds(name, Algorithm(uri), [])], outer)
  {
    PlainAlgorithm(uri);
    SoundDs(name, Algorithm(uri), [], outer);
  }

  lemma SoundTwo(a: Node, b: Node, outer: seq<Namespace>)
    requires Sound([a], outer) && Sound([b], outer)
    ensures Sound([a, b], outer)
  {
    SoundCons(a, [b], outer);
    assert [a] + [b] == [a, b];
  }

  lemma SoundThree(a: Node, b: Node, c: Node, outer: seq<Namespace>)
    requires Sound([a], outer) && Sound([b], outer) && Sound([c], outer)
    ensures Sound([a, b, c], outer)
  {
    SoundTwo(b, c, outer);
    SoundCons(a, [b, c], outer);
    assert [a] + [b, c] == [a, b, c];
  }

  lemma TransformNames()
    ensures IsNcName("InclusiveNamespaces") && IsNcName("PrefixList") && IsNcName("Transform")
  {
  }

  lemma ReferenceNames()
    ensures IsNcName("Transforms") && IsNcName("DigestMethod") && IsNcName("DigestValue")
    ensures IsNcName("Reference") && IsNcName("URI")
  {
  }

  lemma InfoNames()
    ensures IsNcName("CanonicalizationMethod") && IsNcName("SignatureMethod") && IsNcName("SignedInfo")
  {
  }

  lemma SoundPrefixList(list: string, outer: seq<Namespace>)
    requires BindsDs(outer)
    ensures Sound([Ds("InclusiveNamespaces", [Attribute(None, "PrefixList", list)], [])], outer)
  {
    TransformNames();
    SoundDs("InclusiveNamespaces", [Attribute(None, "PrefixList", list)], [], outer);
  }

  lemma SoundTransforms(list: string, outer: seq<Namespace>)
    requires BindsDs(outer)
    ensures Sound([Ds("Transforms", [], TransformList(list))], outer)
  {
    var prefixes := Ds("InclusiveNamespaces", [Attribute(None, "PrefixList", list)], []);
    TransformNames();
    ReferenceNames();
    SoundPrefixList(list, outer);
    PlainAlgorithm(ALG_EXC_C14N);
    SoundDs("Transform", Algorithm(ALG_EXC_C14N), [prefixes], outer);
    SoundEmpty("Transform", ALG_ENVELOPED, outer);
    SoundTwo(Ds("Transform", Algorithm(ALG_ENVELOPED), []), Ds("Transform", Algorithm(ALG_EXC_C14N), [prefixes]),
             outer);
    SoundDs("Transforms", [], TransformList(list), outer);
  }

  lemma SoundDigestValue(digestText: string, outer: seq<Namespace>)
    requires BindsDs(outer)
    ensures Sound([Ds("DigestValue", [], [Text(0, digestText)])], outer)
  {
    ReferenceNames();
    SoundText(digestText, outer);
    SoundDs("DigestValue", [], [Text(0, digestText)], outer);
  }

  lemma SoundReference(id: string, list: string, digestText: string, outer: seq<Namespace>)
    requires BindsDs(outer)
    ensures Sound([ReferenceTo(id, list, digestText)], outer)
  {
    var transforms := Ds("Transforms", [], TransformList(list));
    var digestMethod := Ds("DigestMethod", Algorithm(ALG_SHA256), []);
    var digestValue := Ds("DigestValue", [], [Text(0, digestText)]);
    ReferenceNames();
    SoundTransforms(list, outer);
    SoundEmpty("DigestMethod", ALG_SHA256, outer);
    SoundDigestValue(digestText, outer);
    SoundThree(transforms, digestMethod, digestValue, outer);
    SoundDs("Reference", [Attribute(None, "URI", "#" + id)], [transforms, digestMethod, digestValue], outer);
  }

  lemma SoundInfo(id: string, list: string, digestText: string, outer: seq<Namespace>)
    requires BindsDs(outer)
    ensures Sound([InfoFor(id, list, digestText)], outer)
  {
    var c14n := Ds("CanonicalizationMethod", Algorithm(ALG_EXC_C14N), []);
    var signatureMethod := Ds("SignatureMethod", Algorithm(ALG_RSA_SHA256), []);
    var reference := ReferenceTo(id, list, digestText);
    InfoNames();
    SoundEmpty("CanonicalizationMethod", ALG_EXC_C14N, outer);
    SoundEmpty("SignatureMethod", ALG_RSA_SHA256, outer);
    SoundReference(id, list, digestText, outer);
    SoundThree(c14n, signatureMethod, reference, outer);
    SoundDs("SignedInfo", [], [c14n, signatureMethod, reference], outer);
  }

  // ---------------------------------------------------------------- theorem

  /** The SignedInfo a signer builds for an element. */
  function InfoOf(crypto: Crypto, signer: Signer, element: Place, id: string, list: string): Place {
    var content := CanonicalString(element.node, None, Words(list), element.outer);
    Place(InfoFor(id, list, signer.encode(crypto.digest(content))), InScope(DsDeclaration, element.Inner()))
  }

  /** The bytes a signer puts its key to. */
  function BytesSigned(crypto: Crypto, signer: Signer, element: Place, id: string, list: string): string {
    var info := InfoOf(crypto, signer, element, id, list);
    CanonicalString(info.node, None, [], info.outer)
  }

  lemma SignerScope(element: Place)
    requires WellFormed(element)
    ensures var inner := InScope(DsDeclaration, element.Inner()); ValidScope(inner) && BindsDs(inner)
  {
    InScopeValid(element.node.own, element.outer);
    assert ValidScope(DsDeclaration) by { assert IsNcName("ds"); }
    InScopeValid(DsDeclaration, element.Inner());
  }

  lemma BuiltReference(info: Place, id: string, list: string, digestText: string)
    requires BindsDs(info.outer) && info.node == InfoFor(id, list, digestText)
    ensures DsChild(info, "Reference") == Pass(Place(ReferenceTo(id, list, digestText), info.outer))
  {
    NothingOwn(info.outer);
    ChildAt(info, ["CanonicalizationMethod", "SignatureMethod", "Reference"], 2);
  }

  /** The digest element of the built SignedInfo and what it decodes to. */
  lemma BuiltDigest(crypto: Crypto, signer: Signer, reference: Place, id: string, list: string, digest: Bytes)
    requires Matches(signer, crypto) && BindsDs(reference.outer)
    requires reference.node == ReferenceTo(id, list, signer.encode(digest))
    ensures DsChild(reference, "DigestValue").Pass?
    ensures DecodedText(crypto, DsChild(reference, "DigestValue").value.node) == Pass(digest)
  {
    NothingOwn(reference.outer);
    ChildAt(reference, ["Transforms", "DigestMethod", "DigestValue"], 2);
  }

  lemma SameSignedInfo(a: Place, prefixes: seq<string>, b: Place)
    requires WellFormed(a) && AttributesPrefixed([a.node], None, a.outer)
    requires WellFormed(b) && AttributesPrefixed([b.node], None, b.outer)
    requires CanonicalString(a.node, None, prefixes, a.outer) == CanonicalString(b.node, None, [], b.outer)
    ensures ContentOf(a) == ContentOf(b)
  {
    EqualStringsEqualMeaning(a.node, b.node, None, None, prefixes, [], a.outer, b.outer);
    SingleContent(a);
    SingleContent(b);
  }

  /**
    What is accepted is what was signed: if the bytes under an accepted signature
    are bytes the signer signed for `signed`, then the accepted element means what
    `signed` means, or the two digested strings collide.
   */
  lemma AcceptedIsWhatWasSigned(crypto: Crypto, signer: Signer, signed: Place, id: string, list: string,
                                document: seq<Node>, element: Place)
    requires Sized(crypto) && Matches(signer, crypto) && WellFormed(element) && WellFormed(signed)
    requires AttributesPrefixed([signed.node], None, signed.outer)
    requires Verify(crypto, document, element).Pass? && Nameable(element, Verify(crypto, document, element).value)
    requires SignedBytes(Verify(crypto, document, element).value) == BytesSigned(crypto, signer, signed, id, list)
    ensures var parts := Verify(crypto, document, element).value;
            var content := CanonicalString(signed.node, None, Words(list), signed.outer);
            || Meaning(element, parts) == Merge(Infoset([signed.node], None, signed.outer))
            || Collision(crypto, SignedContent(element, parts), content)
  {
    var parts := Verify(crypto, document, element).value;
    var content := CanonicalString(signed.node, None, Words(list), signed.outer);
    var info := InfoOf(crypto, signer, signed, id, list);
    AcceptedDigest(crypto, document, element);
    ChildWellFormed(element, "Signature");
    ChildWellFormed(parts.signature, "SignedInfo");
    SignerScope(signed);
    SoundInfo(id, list, signer.encode(crypto.digest(content)), info.outer);
    SameSignedInfo(parts.info, parts.infoPrefixes, info);
    BuiltReference(info, id, list, signer.encode(crypto.digest(content)));
    var read, built := DsChild(parts.info, "Reference").value, DsChild(info, "Reference").value;
    BuiltDigest(crypto, signer, built, id, list, crypto.digest(content));
    SameChild(parts.info, info, "Reference");
    SameChild(read, built, "DigestValue");
    SameDigestValue(crypto, DsChild(read, "DigestValue").value, DsChild(built, "DigestValue").value);
    if SignedContent(element, parts) == content {
      EqualStringsEqualMeaning(element.node, signed.node, Some(parts.signature.node.id), None,
                               parts.referencePrefixes, Words(list), element.outer, signed.outer);
    }
  }
}
