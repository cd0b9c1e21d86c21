/**
  The signer's side of xmldsig.rs: an enveloped signature built over an element
  the way an identity provider does, and the proof that verification accepts it
  exactly when the reference names the element.
 */
module XmlSigning {
  import opened Options
  import opened XmlTree
  import opened ExcC14n
  import opened ExcC14nLaws
  import opened XmlSignature

  /** The signer's primitives, inverse to the verifier's. */
  datatype Signer = Signer(encode: Bytes -> string, sign: string -> Bytes)

  ghost predicate Matches(signer: Signer, crypto: Crypto) {
    && (forall b :: crypto.base64(Compact(signer.encode(b))) == Some(b))
    && (forall m :: crypto.wellFormed(signer.sign(m)) && crypto.verifies(m, signer.sign(m)))
  }

  // ---------------------------------------------------- building a signature

  function Ds(name: string, attributes: seq<Attribute>, children: seq<Node>): Node {
    Element(0, "ds:" + name, [], attributes, children)
  }

  function Algorithm(uri: string): seq<Attribute> {
    [Attribute(None, "Algorithm", uri)]
  }

  /** The two transforms, the second with a PrefixList. */
  function TransformList(list: string): seq<Node> {
    [Ds("Transform", Algorithm(ALG_ENVELOPED), []),
     Ds("Transform", Algorithm(ALG_EXC_C14N), [Ds("InclusiveNamespaces", [Attribute(None, "PrefixList", list)], [])])]
  }

  function ReferenceTo(id: string, list: string, digestText: string): Node {
    Ds("Reference", [Attribute(None, "URI", "#" + id)],
       [Ds("Transforms", [], TransformList(list)),
        Ds("DigestMethod", Algorithm(ALG_SHA256), []),
        Ds("DigestValue", [], [Text(0, digestText)])])
  }

  function InfoFor(id: string, list: string, digestText: string): Node {
    Ds("SignedInfo", [],
       [Ds("CanonicalizationMethod", Algorithm(ALG_EXC_C14N), []),
        Ds("SignatureMethod", Algorithm(ALG_RSA_SHA256), []),
        ReferenceTo(id, list, digestText)])
  }

  const DsDeclaration := [Namespace(Some("ds"), NS_DSIG)]

  function SignatureOver(sid: nat, info: Node, signatureText: string): Node {
    Element(sid, "ds:" + "Signature", DsDeclaration, [], [info, Ds("SignatureValue", [], [Text(0, signatureText)])])
  }

  /** The element with its signature inserted before child `k`. */
  function Sign(crypto: Crypto, signer: Signer, element: Place, id: string, list: string, sid: nat, k: nat): Place
    requires element.node.Element? && k <= |element.node.children|
  {
    var content := CanonicalString(element.node, None, Words(list), element.outer);
    var info := InfoFor(id, list, signer.encode(crypto.digest(content)));
    var bytes := CanonicalString(info, None, [], InScope(DsDeclaration, element.Inner()));
    var signature := SignatureOver(sid, info, signer.encode(signer.sign(bytes)));
    Enveloping(element, signature, k)
  }

  function Enveloping(element: Place, signature: Node, k: nat): Place
    requires element.node.Element? && k <= |element.node.children|
  {
    var children := element.node.children;
    element.(node := element.node.(children := children[..k] + [signature] + children[k..]))
  }

  // ------------------------------------------------------ finding the parts

  predicate BindsDs(ns: seq<Namespace>) {
    LookupUri(ns, Some("ds")) == Some(NS_DSIG)
  }

  lemma DsNames(name: string)
    requires ':' !in name
    ensures Prefix("ds:" + name) == Some("ds") && Local("ds:" + name) == name
  {
    assert "ds:" + name == "ds" + ":" + name;
    PrefixedName("ds", name);
  }

  lemma DsIs(node: Node, ns: seq<Namespace>, name: string, sought: string)
    requires BindsDs(ns) && ':' !in name
    requires node.Element? && node.qname == "ds:" + name && node.own == []
    ensures IsDs(node, ns, sought) <==> name == sought
    ensures Local(node.qname) == name
  {
    DsNames(name);
    NothingOwn(ns);
  }

  /** The first match decides what `ds_child` returns, the only match the whole list. */
  lemma {:induction false} FirstMatch(nodes: seq<Node>, outer: seq<Namespace>, name: string, i: nat)
    requires i < |nodes| && IsDs(nodes[i], outer, name)
    requires forall j :: 0 <= j < i ==> !IsDs(nodes[j], outer, name)
    ensures DsElements(nodes, outer, name) != [] && DsElements(nodes, outer, name)[0] == nodes[i]
    ensures (forall j :: i < j < |nodes| ==> !IsDs(nodes[j], outer, name)) ==> |DsElements(nodes, outer, name)| == 1
  {
    if i > 0 {
      FirstMatch(nodes[1..], outer, name, i - 1);
    } else if forall j :: i < j < |nodes| ==> !IsDs(nodes[j], outer, name) {
      NoMatch(nodes[1..], outer, name);
    }
  }

  lemma {:induction false} NoMatch(nodes: seq<Node>, outer: seq<Namespace>, name: string)
    requires forall j :: 0 <= j < |nodes| ==> !IsDs(nodes[j], outer, name)
    ensures DsElements(nodes, outer, name) == []
  {
    if nodes != [] {
      NoMatch(nodes[1..], outer, name);
    }
  }

  /** `ds_child` on an element whose children have the given names. */
  lemma ChildAt(parent: Place, names: seq<string>, i: nat)
    requires BindsDs(parent.Inner()) && i < |names| == |parent.Children()|
    requires forall j :: 0 <= j < |names| ==> ':' !in names[j]
    requires forall j :: 0 <= j < |names| ==>
               var n := parent.Children()[j]; n.Element? && n.qname == "ds:" + names[j] && n.own == []
    requires forall j :: 0 <= j < |names| && j != i ==> names[j] != names[i]
    ensures DsChild(parent, names[i]) == Pass(Place(parent.Children()[i], parent.Inner()))
    ensures |DsElements(parent.Children(), parent.Inner(), names[i])| == 1
  {
    forall j | 0 <= j < |names|
      ensures IsDs(parent.Children()[j], parent.Inner(), names[i]) <==> names[j] == names[i]
    {
      DsIs(parent.Children()[j], parent.Inner(), names[j], names[i]);
    }
    FirstMatch(parent.Children(), parent.Inner(), names[i], i);
  }

  lemma OneAttribute(name: string, value: string, n: Node)
    requires n.Element? && n.attributes == [Attribute(None, name, value)]
    ensures AttributeValue(n, name) == Some(value)
  {
  }

  lemma InclusiveRead(list: string)
    ensures InclusivePrefixes(TransformList(list)[1]) == Words(list)
  {
    var inner := TransformList(list)[1].children;
    DsNames("InclusiveNamespaces");
    OneAttribute("PrefixList", list, inner[0]);
    assert PrefixLists(inner[1..]) == [];
  }

  lemma TransformsRead(list: string)
    ensures ReadTransforms(TransformList(list), Transforms(false, [])) == Pass(Transforms(true, Words(list)))
  {
    var nodes := TransformList(list);
    DsNames("Transform");
    OneAttribute("Algorithm", ALG_ENVELOPED, nodes[0]);
    OneAttribute("Algorithm", ALG_EXC_C14N, nodes[1]);
    InclusiveRead(list);
    TwoTransforms(nodes[0], nodes[1]);
  }

  lemma TwoTransforms(first: Node, second: Node)
    requires first.Element? && second.Element? && Local(first.qname) == Local(second.qname) == "Transform"
    requires Uses(first, ALG_ENVELOPED) && Uses(second, ALG_EXC_C14N)
    ensures ReadTransforms([first, second], Transforms(false, [])) == Pass(Transforms(true, InclusivePrefixes(second)))
  {
    var rest := Transforms(true, [] + InclusivePrefixes(second));
    assert rest.prefixes == InclusivePrefixes(second);
    assert |ALG_ENVELOPED| != |ALG_EXC_C14N|;
    assert [first, second][1..] == [second] && [second][1..] == [];
    assert ReadTransforms([first, second], Transforms(false, [])) == ReadTransforms([second], Transforms(true, []));
    assert ReadTransforms([second], Transforms(true, [])) == ReadTransforms([], rest);
  }

  lemma ReferenceChildren(reference: Place, id: string, list: string, digestText: string)
    requires BindsDs(reference.outer) && reference.node == ReferenceTo(id, list, digestText)
    ensures DsChild(reference, "Transforms") == Pass(Place(reference.node.children[0], reference.outer))
    ensures DsChild(reference, "DigestMethod") == Pass(Place(reference.node.children[1], reference.outer))
    ensures DsChild(reference, "DigestValue") == Pass(Place(reference.node.children[2], reference.outer))
  {
    NothingOwn(reference.outer);
    var names := ["Transforms", "DigestMethod", "DigestValue"];
    ChildAt(reference, names, 0);
    ChildAt(reference, names, 1);
    ChildAt(reference, names, 2);
  }

  lemma ReferenceRead(crypto: Crypto, document: seq<Node>, element: Place, id: string, list: string,
                      digestText: string, digest: Bytes, outer: seq<Namespace>)
    requires BindsDs(outer) && crypto.base64(Compact(digestText)) == Some(digest)
    ensures var reference := Place(ReferenceTo(id, list, digestText), outer);
            ReadReference(crypto, document, element, reference)
            == if AttributeValue(element.node, "ID") != Some(id) then Fail(NotThisElement)
               else if Occurrences(document, id) != 1 then Fail(IdNotUnique)
               else Pass((Words(list), digest))
  {
    var reference := Place(ReferenceTo(id, list, digestText), outer);
    ReferenceChildren(reference, id, list, digestText);
    TransformsRead(list);
    OneAttribute("URI", "#" + id, reference.node);
    OneAttribute("Algorithm", ALG_SHA256, reference.node.children[1]);
    assert ("#" + id)[1..] == id;
  }

  lemma MethodsRead(info: Place, id: string, list: string, digestText: string)
    requires BindsDs(info.outer) && info.node == InfoFor(id, list, digestText)
    ensures ReadMethods(info) == Pass([])
  {
    NothingOwn(info.outer);
    var names := ["CanonicalizationMethod", "SignatureMethod", "Reference"];
    ChildAt(info, names, 0);
    ChildAt(info, names, 1);
    OneAttribute("Algorithm", ALG_EXC_C14N, info.Children()[0]);
    OneAttribute("Algorithm", ALG_RSA_SHA256, info.Children()[1]);
  }

  lemma OnlyReferenceRead(crypto: Crypto, document: seq<Node>, element: Place, info: Place, id: string, list: string,
                          digestText: string)
    requires BindsDs(info.outer) && info.node == InfoFor(id, list, digestText)
    ensures ReadOnlyReference(crypto, document, element, info)
         == ReadReference(crypto, document, element, Place(ReferenceTo(id, list, digestText), info.outer))
  {
    NothingOwn(info.outer);
    ChildAt(info, ["CanonicalizationMethod", "SignatureMethod", "Reference"], 2);
  }

  lemma InfoRead(crypto: Crypto, document: seq<Node>, element: Place, signature: Place, id: string, list: string,
                 digestText: string, outer: seq<Namespace>)
    requires BindsDs(outer)
    ensures var info := Place(InfoFor(id, list, digestText), outer);
            var reference := ReadReference(crypto, document, element, Place(ReferenceTo(id, list, digestText), outer));
            ReadSignedInfo(crypto, document, element, signature, info)
            == if reference.Fail? then Fail(reference.reason)
               else Pass(Parts(signature, info, [], reference.value.0, reference.value.1))
  {
    var info := Place(InfoFor(id, list, digestText), outer);
    MethodsRead(info, id, list, digestText);
    OnlyReferenceRead(crypto, document, element, info, id, list, digestText);
  }

  // ------------------------------------- the signature does not cover itself

  function Ids(nodes: seq<Node>): set<nat> {
    if nodes == [] then {}
    else {nodes[0].id} + (if nodes[0].Element? then Ids(nodes[0].children) else {}) + Ids(nodes[1..])
  }

  lemma {:induction false} PruneAbsent(nodes: seq<Node>, id: nat)
    requires id !in Ids(nodes)
    ensures Prune(nodes, id) == nodes
  {
    if nodes != [] {
      PruneAbsent(nodes[1..], id);
      if nodes[0].Element? {
        PruneAbsent(nodes[0].children, id);
      }
    }
  }

  lemma {:induction false} PruneAppend(a: seq<Node>, b: seq<Node>, id: nat)
    ensures Prune(a + b, id) == Prune(a, id) + Prune(b, id)
  {
    if a == [] {
      assert a + b == b;
    } else {
      assert (a + b)[1..] == a[1..] + b;
      PruneAppend(a[1..], b, id);
    }
  }

  lemma PruneInserted(front: seq<Node>, signature: Node, back: seq<Node>)
    requires signature.id !in Ids(front + back)
    ensures Prune(front + [signature] + back, signature.id) == front + back
  {
    var id := signature.id;
    PruneAppend(front + [signature], back, id);
    PruneAppend(front, [signature], id);
    PruneAppend(front, back, id);
    PruneAbsent(front + back, id);
    assert Prune([signature], id) == [] by { assert Prune([signature][1..], id) == []; }
    assert Prune(front, id) + [] == Prune(front, id);
  }

  lemma PruneOne(element: Node, id: nat, children: seq<Node>)
    requires element.Element? && element.id != id && Prune(element.children, id) == children
    ensures Prune([element], id) == [element.(children := children)]
  {
    assert Prune([element][1..], id) == [];
  }

  /** Excluding the inserted signature leaves the content as it was signed. */
  lemma InsertedIsExcluded(place: Place, signature: Node, k: nat, inclusive: seq<string>)
    requires place.node.Element? && k <= |place.node.children| && signature.id !in Ids([place.node])
    ensures CanonicalString(Enveloping(place, signature, k).node, Some(signature.id), inclusive, place.outer)
         == CanonicalString(place.node, None, inclusive, place.outer)
  {
    var children := place.node.children;
    assert children[..k] + children[k..] == children;
    PruneInserted(children[..k], signature, children[k..]);
    PruneOne(Enveloping(place, signature, k).node, signature.id, children);
    ExclusionPrunes([Enveloping(place, signature, k).node], signature.id, inclusive, place.outer, map[]);
  }

  // ---------------------------------------------------------------- theorem

  lemma SignatureFound(element: Place, signature: Node, k: nat)
    requires element.node.Element? && k <= |element.node.children|
    requires signature.Element? && signature.qname == "ds:" + "Signature" && signature.own == DsDeclaration
    requires forall i :: 0 <= i < k ==> !IsDs(element.node.children[i], element.Inner(), "Signature")
    ensures DsChild(Enveloping(element, signature, k), "Signature") == Pass(Place(signature, element.Inner()))
    ensures BindsDs(Place(signature, element.Inner()).Inner())
  {
    var children := Enveloping(element, signature, k).node.children;
    assert children[k] == signature;
    DsNames("Signature");
    assert LookupUri(InScope(DsDeclaration, element.Inner()), Some("ds")) == Some(NS_DSIG);
    FirstMatch(children, element.Inner(), "Signature", k);
  }

  lemma SignatureChildren(signature: Place, sid: nat, info: Node, signatureText: string)
    requires signature.node == SignatureOver(sid, info, signatureText) && BindsDs(signature.Inner())
    requires info.Element? && info.qname == "ds:" + "SignedInfo" && info.own == []
    ensures DsChild(signature, "SignedInfo") == Pass(Place(info, signature.Inner()))
    ensures DsChild(signature, "SignatureValue").Pass?
    ensures FirstText(DsChild(signature, "SignatureValue").value.node) == Some(signatureText)
  {
    var names := ["SignedInfo", "SignatureValue"];
    ChildAt(signature, names, 0);
    ChildAt(signature, names, 1);
  }

  /** The last steps of verification, once the signature has been read. */
  lemma FinalChecks(crypto: Crypto, document: seq<Node>, element: Place, parts: Parts, text: string)
    requires ReadSignature(crypto, document, element) == Pass(parts)
    requires crypto.digest(SignedContent(element, parts)) == parts.digestValue
    requires DsChild(parts.signature, "SignatureValue").Pass?
    requires FirstText(DsChild(parts.signature, "SignatureValue").value.node) == Some(text)
    requires crypto.base64(Compact(text)).Some?
    requires crypto.wellFormed(crypto.base64(Compact(text)).value)
    requires crypto.verifies(SignedBytes(parts), crypto.base64(Compact(text)).value)
    ensures Verify(crypto, document, element) == Pass(parts)
  {
  }

  lemma SignatureRead(crypto: Crypto, document: seq<Node>, element: Place, signature: Place, info: Place)
    requires DsChild(element, "Signature") == Pass(signature)
    requires DsChild(signature, "SignedInfo") == Pass(info)
    ensures ReadSignature(crypto, document, element) == ReadSignedInfo(crypto, document, element, signature, info)
  {
  }

  lemma EnvelopingParts(crypto: Crypto, document: seq<Node>, element: Place, sid: nat, info: Node, text: string, k: nat)
    requires element.node.Element? && k <= |element.node.children|
    requires forall i :: 0 <= i < k ==> !IsDs(element.node.children[i], element.Inner(), "Signature")
    requires info.Element? && info.qname == "ds:" + "SignedInfo" && info.own == []
    ensures var signature := Place(SignatureOver(sid, info, text), element.Inner());
            var carrier := Enveloping(element, signature.node, k);
            && BindsDs(signature.Inner())
            && ReadSignature(crypto, document, carrier)
               == ReadSignedInfo(crypto, document, carrier, signature, Place(info, signature.Inner()))
            && DsChild(signature, "SignatureValue").Pass?
            && FirstText(DsChild(signature, "SignatureValue").value.node) == Some(text)
  {
    var signature := Place(SignatureOver(sid, info, text), element.Inner());
    SignatureFound(element, signature.node, k);
    SignatureChildren(signature, sid, info, text);
    SignatureRead(crypto, document, Enveloping(element, signature.node, k), signature, Place(info, signature.Inner()));
  }

  /** What verification reads from an element that carries such a signature. */
  lemma EnvelopingRead(crypto: Crypto, document: seq<Node>, element: Place, id: string, list: string,
                       digestText: string, digest: Bytes, text: string, sid: nat, k: nat)
    requires element.node.Element? && k <= |element.node.children|
    requires forall i :: 0 <= i < k ==> !IsDs(element.node.children[i], element.Inner(), "Signature")
    requires crypto.base64(Compact(digestText)) == Some(digest)
    ensures var inner := InScope(DsDeclaration, element.Inner());
            var info := Place(InfoFor(id, list, digestText), inner);
            var signature := Place(SignatureOver(sid, info.node, text), element.Inner());
            && ReadSignature(crypto, document, Enveloping(element, signature.node, k))
               == (if AttributeValue(element.node, "ID") != Some(id) then Fail(NotThisElement)
                   else if Occurrences(document, id) != 1 then Fail(IdNotUnique)
                   else Pass(Parts(signature, info, [], Words(list), digest)))
            && DsChild(signature, "SignatureValue").Pass?
            && FirstText(DsChild(signature, "SignatureValue").value.node) == Some(text)
  {
    var inner := InScope(DsDeclaration, element.Inner());
    var info := Place(InfoFor(id, list, digestText), inner);
    var signature := Place(SignatureOver(sid, info.node, text), element.Inner());
    var carrier := Enveloping(element, signature.node, k);
    EnvelopingParts(crypto, document, element, sid, info.node, text, k);
    InfoRead(crypto, document, carrier, signature, id, list, digestText, inner);
    ReferenceRead(crypto, document, carrier, id, list, digestText, digest, inner);
  }

  /**
    Signing then verifying: accepted exactly when the reference is the element's
    own ID and no other element of the document carries it.
   */
  lemma SignThenVerify(crypto: Crypto, signer: Signer, document: seq<Node>, element: Place,
                       id: string, list: string, sid: nat, k: nat)
    requires Matches(signer, crypto)
    requires element.node.Element? && k <= |element.node.children| && sid !in Ids([element.node])
    requires forall i :: 0 <= i < k ==> !IsDs(element.node.children[i], element.Inner(), "Signature")
    ensures var signed := Sign(crypto, signer, element, id, list, sid, k);
            Verify(crypto, document, signed).Pass?
            <==> AttributeValue(element.node, "ID") == Some(id) && Occurrences(document, id) == 1
  {
    var signed := Sign(crypto, signer, element, id, list, sid, k);
    var content := CanonicalString(element.node, None, Words(list), element.outer);
    var digest := crypto.digest(content);
    var inner := InScope(DsDeclaration, element.Inner());
    var info := Place(InfoFor(id, list, signer.encode(digest)), inner);
    var value := signer.sign(CanonicalString(info.node, None, [], inner));
    var text := signer.encode(value);
    var signature := Place(SignatureOver(sid, info.node, text), element.Inner());
    EnvelopingRead(crypto, document, element, id, list, signer.encode(digest), digest, text, sid, k);
    if AttributeValue(element.node, "ID") == Some(id) && Occurrences(document, id) == 1 {
      InsertedIsExcluded(element, signature.node, k, Words(list));
      FinalChecks(crypto, document, signed, Parts(signature, info, [], Words(list), digest), text);
    }
  }
}
