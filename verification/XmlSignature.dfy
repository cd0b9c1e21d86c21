/**
  Enveloped signature verification (`verify_enveloped_signature` in xmldsig.rs).
  Hashing, RSA and the base64 alphabet are parameters; finding the signature,
  reading it and deciding what was signed are modelled.
 */
module XmlSignature {
  import opened Options
  import opened XmlTree
  import opened ExcC14n
  import opened ExcC14nNamespaces
  import Splitting

  const NS_DSIG := "http://www.w3.org/2000/09/xmldsig#"
  const ALG_EXC_C14N := "http://www.w3.org/2001/10/xml-exc-c14n#"
  const ALG_RSA_SHA256 := "http://www.w3.org/2001/04/xmldsig-more#rsa-sha256"
  const ALG_SHA256 := "http://www.w3.org/2001/04/xmlenc#sha256"
  const ALG_ENVELOPED := "http://www.w3.org/2000/09/xmldsig#enveloped-signature"

  type Bytes = seq<bv8>

  /** What the libraries provide; `wellFormed` and `verifies` belong to the configured key. */
  datatype Crypto = Crypto(
    digest: string -> Bytes,
    base64: string -> Option<Bytes>,
    wellFormed: Bytes -> bool,
    verifies: (string, Bytes) -> bool)

  datatype Reason =
    | NoSignature
    | Missing(name: string)
    | UnsupportedCanonicalization
    | UnsupportedSignatureMethod
    | NotOneReference
    | NotSameDocument
    | NotThisElement
    | IdNotUnique
    | UnsupportedTransform
    | NotEnveloped
    | UnsupportedDigestMethod
    | InvalidBase64
    | DigestMismatch
    | MalformedSignature
    | BadSignature

  datatype Check<+T> = Pass(value: T) | Fail(reason: Reason) {
    predicate IsFailure() {
      Fail?
    }

    function PropagateFailure<U>(): Check<U>
      requires Fail?
    {
      Fail(reason)
    }

    function Extract(): T
      requires Pass?
    {
      value
    }
  }

  // ------------------------------------------------------------ navigation

  /** A node together with the namespaces its ancestors put in scope. */
  datatype Place = Place(node: Node, outer: seq<Namespace>) {
    function Inner(): seq<Namespace> {
      if node.Element? then InScope(node.own, outer) else outer
    }

    function Children(): seq<Node> {
      if node.Element? then node.children else []
    }
  }

  /** The value of the attribute of this name that is in no namespace. */
  function Value(attributes: seq<Attribute>, name: string): Option<string> {
    if attributes == [] then None
    else if attributes[0].namespace.None? && attributes[0].name == name then Some(attributes[0].value)
    else Value(attributes[1..], name)
  }

  /** `node.attribute(name)`. */
  function AttributeValue(node: Node, name: string): Option<string> {
    if node.Element? then Value(node.attributes, name) else None
  }

  predicate IsDs(node: Node, outer: seq<Namespace>, name: string) {
    node.Element?
    && ElementUri(Prefix(node.qname), Uri(InScope(node.own, outer), Prefix(node.qname))) == NS_DSIG
    && Local(node.qname) == name
  }

  /** The signature-namespace elements of this name among siblings. */
  function DsElements(nodes: seq<Node>, outer: seq<Namespace>, name: string): seq<Node> {
    if nodes == [] then []
    else (if IsDs(nodes[0], outer, name) then [nodes[0]] else []) + DsElements(nodes[1..], outer, name)
  }

  /** `ds_child`, and with "Signature" `direct_signature`: the first of them. */
  function DsChild(parent: Place, name: string): Check<Place> {
    var found := DsElements(parent.Children(), parent.Inner(), name);
    if found == [] then Fail(Missing(name)) else Pass(Place(found[0], parent.Inner()))
  }

  /** `node.text()`: an element's first child, if that is text. */
  function FirstText(node: Node): Option<string> {
    if node.Element? && node.children != [] && node.children[0].Text? then Some(node.children[0].text) else None
  }

  /** Elements anywhere below carrying this ID. */
  function Occurrences(nodes: seq<Node>, id: string): nat {
    if nodes == [] then 0
    else (if AttributeValue(nodes[0], "ID") == Some(id) then 1 else 0)
         + (if nodes[0].Element? then Occurrences(nodes[0].children, id) else 0)
         + Occurrences(nodes[1..], id)
  }

  // --------------------------------------------------------------- strings

  /** `char::is_whitespace`. */
  predicate Whitespace(c: char) {
    || '\t' <= c <= '\r' || c in {' ', '\U{85}', '\U{A0}', '\U{1680}'} || '\U{2000}' <= c <= '\U{200A}'
    || c in {'\U{2028}', '\U{2029}', '\U{202F}', '\U{205F}', '\U{3000}'}
  }

  function Compact(s: string): string {
    if s == "" then "" else (if Whitespace(s[0]) then "" else [s[0]]) + Compact(s[1..])
  }

  /** `split_whitespace`. */
  function Words(s: string): seq<string> {
    Splitting.Split(s, "", Whitespace)
  }

  /** `text().map(decode_base64).transpose()?.unwrap_or_default()`. */
  function DecodedText(crypto: Crypto, node: Node): Check<Bytes> {
    match FirstText(node)
    case None => Pass([])
    case Some(text) =>
      match crypto.base64(Compact(text))
      case None => Fail(InvalidBase64)
      case Some(bytes) => Pass(bytes)
  }

  // ---------------------------------------------------- reading a signature

  function PrefixLists(nodes: seq<Node>): seq<string> {
    if nodes == [] then []
    else
      (if nodes[0].Element? && Local(nodes[0].qname) == "InclusiveNamespaces"
       then Words(AttributeValue(nodes[0], "PrefixList").GetOr("")) else [])
      + PrefixLists(nodes[1..])
  }

  /** `inclusive_prefixes`. */
  function InclusivePrefixes(node: Node): seq<string> {
    if node.Element? then PrefixLists(node.children) else []
  }

  datatype Transforms = Transforms(enveloped: bool, prefixes: seq<string>)

  /** The transforms of a reference, in order, added to those already read. */
  function ReadTransforms(nodes: seq<Node>, sofar: Transforms): Check<Transforms>
    decreases nodes
  {
    if nodes == [] then Pass(sofar)
    else if !(nodes[0].Element? && Local(nodes[0].qname) == "Transform") then ReadTransforms(nodes[1..], sofar)
    else
      var algorithm := AttributeValue(nodes[0], "Algorithm").GetOr("");
      if algorithm == ALG_ENVELOPED then ReadTransforms(nodes[1..], sofar.(enveloped := true))
      else if algorithm == ALG_EXC_C14N then
        ReadTransforms(nodes[1..], sofar.(prefixes := sofar.prefixes + InclusivePrefixes(nodes[0])))
      else Fail(UnsupportedTransform)
  }

  predicate Uses(node: Node, algorithm: string) {
    AttributeValue(node, "Algorithm") == Some(algorithm)
  }

  /** The parts of a signature that passed every check before the digest is compared. */
  datatype Parts = Parts(signature: Place, info: Place, infoPrefixes: seq<string>,
                         referencePrefixes: seq<string>, digestValue: Bytes)

  function ReadReference(crypto: Crypto, document: seq<Node>, element: Place, reference: Place)
    : Check<(seq<string>, Bytes)>
  {
    var uri := AttributeValue(reference.node, "URI").GetOr("");
    if !("#" <= uri) then Fail(NotSameDocument)
    else if AttributeValue(element.node, "ID") != Some(uri[1..]) then Fail(NotThisElement)
    else if Occurrences(document, uri[1..]) != 1 then Fail(IdNotUnique)
    else
      var list :- DsChild(reference, "Transforms");
      var transforms :- ReadTransforms(list.Children(), Transforms(false, []));
      if !transforms.enveloped then Fail(NotEnveloped)
      else
        var digestMethod :- DsChild(reference, "DigestMethod");
        if !Uses(digestMethod.node, ALG_SHA256) then Fail(UnsupportedDigestMethod)
        else
          var digestElement :- DsChild(reference, "DigestValue");
          var digestValue :- DecodedText(crypto, digestElement.node);
          Pass((transforms.prefixes, digestValue))
  }

  /** The one reference of a SignedInfo. */
  function ReadOnlyReference(crypto: Crypto, document: seq<Node>, element: Place, info: Place)
    : Check<(seq<string>, Bytes)>
  {
    if |DsElements(info.Children(), info.Inner(), "Reference")| != 1 then Fail(NotOneReference)
    else
      var reference :- DsChild(info, "Reference");
      ReadReference(crypto, document, element, reference)
  }

  /** The two algorithms of a SignedInfo, and the PrefixList for canonicalizing it. */
  function ReadMethods(info: Place): Check<seq<string>> {
    var c14n :- DsChild(info, "CanonicalizationMethod");
    if !Uses(c14n.node, ALG_EXC_C14N) then Fail(UnsupportedCanonicalization)
    else
      var signatureMethod :- DsChild(info, "SignatureMethod");
      if !Uses(signatureMethod.node, ALG_RSA_SHA256) then Fail(UnsupportedSignatureMethod)
      else Pass(InclusivePrefixes(c14n.node))
  }

  function ReadSignedInfo(crypto: Crypto, document: seq<Node>, element: Place, signature: Place, info: Place)
    : Check<Parts>
  {
    var infoPrefixes :- ReadMethods(info);
    var (prefixes, digestValue) :- ReadOnlyReference(crypto, document, element, info);
    Pass(Parts(signature, info, infoPrefixes, prefixes, digestValue))
  }

  function ReadSignature(crypto: Crypto, document: seq<Node>, element: Place): Check<Parts> {
    var signature := DsChild(element, "Signature");
    if signature.Fail? then Fail(NoSignature)
    else
      var info :- DsChild(signature.value, "SignedInfo");
      ReadSignedInfo(crypto, document, element, signature.value, info)
  }

  /** The bytes that are digested. */
  function SignedContent(element: Place, parts: Parts): string {
    CanonicalString(element.node, Some(parts.signature.node.id), parts.referencePrefixes, element.outer)
  }

  /** The bytes under the RSA signature. */
  function SignedBytes(parts: Parts): string {
    CanonicalString(parts.info.node, None, parts.infoPrefixes, parts.info.outer)
  }

  function Verify(crypto: Crypto, document: seq<Node>, element: Place): Check<Parts> {
    var parts :- ReadSignature(crypto, document, element);
    if crypto.digest(SignedContent(element, parts)) != parts.digestValue then Fail(DigestMismatch)
    else
      var valueElement :- DsChild(parts.signature, "SignatureValue");
      var value :- DecodedText(crypto, valueElement.node);
      if !crypto.wellFormed(value) then Fail(MalformedSignature)
      else if !crypto.verifies(SignedBytes(parts), value) then Fail(BadSignature)
      else Pass(parts)
  }

  // ----------------------------------------------------------- the procedure

  /** The loop over the transforms of a reference. */
  method ScanTransforms(nodes: seq<Node>) returns (r: Check<Transforms>)
    ensures r == ReadTransforms(nodes, Transforms(false, []))
  {
    var sawEnveloped, prefixes := false, [];
    for i := 0 to |nodes|
      invariant ReadTransforms(nodes, Transforms(false, []))
             == ReadTransforms(nodes[i..], Transforms(sawEnveloped, prefixes))
    {
      assert nodes[i..][1..] == nodes[i + 1..];
      if nodes[i].Element? && Local(nodes[i].qname) == "Transform" {
        var algorithm := AttributeValue(nodes[i], "Algorithm").GetOr("");
        if algorithm == ALG_ENVELOPED {
          sawEnveloped := true;
        } else if algorithm == ALG_EXC_C14N {
          prefixes := prefixes + InclusivePrefixes(nodes[i]);
        } else {
          return Fail(UnsupportedTransform);
        }
      }
    }
    return Pass(Transforms(sawEnveloped, prefixes));
  }
}
