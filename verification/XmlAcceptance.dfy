/**
  Exactly what `verify_enveloped_signature` accepts: every check of the source as
  one condition on the document, and acceptance if and only if all of them hold.
 */
module XmlAcceptance {
  import opened Options
  import opened XmlTree
  import opened ExcC14n
  import opened XmlSignature
  import opened Sequences
  import Splitting

  // ------------------------------------------------------------ conditions

  /** The signature-namespace child of this name uses this algorithm. */
  predicate HasAlgorithm(parent: Place, name: string, algorithm: string) {
    DsChild(parent, name).Pass? && AttributeValue(DsChild(parent, name).value.node, "Algorithm") == Some(algorithm)
  }

  predicate IsTransform(node: Node) {
    node.Element? && Local(node.qname) == "Transform"
  }

  /** Only the two known transforms, and the enveloped one among them. */
  predicate TransformsAllowed(nodes: seq<Node>) {
    && (forall n <- nodes :: IsTransform(n) ==>
          AttributeValue(n, "Algorithm") == Some(ALG_ENVELOPED) || AttributeValue(n, "Algorithm") == Some(ALG_EXC_C14N))
    && exists n <- nodes :: IsTransform(n) && AttributeValue(n, "Algorithm") == Some(ALG_ENVELOPED)
  }

  /** The prefixes the exclusive transforms list, in order. */
  function TransformPrefixes(nodes: seq<Node>): seq<string> {
    if nodes == [] then []
    else
      (if IsTransform(nodes[0]) && AttributeValue(nodes[0], "Algorithm") == Some(ALG_EXC_C14N)
       then InclusivePrefixes(nodes[0]) else [])
      + TransformPrefixes(nodes[1..])
  }

  /** The reference names the element, alone in the document, and says how its content is digested. */
  predicate GoodReference(document: seq<Node>, element: Place, reference: Place) {
    && AttributeValue(element.node, "ID").Some?
    && AttributeValue(reference.node, "URI") == Some("#" + AttributeValue(element.node, "ID").value)
    && Occurrences(document, AttributeValue(element.node, "ID").value) == 1
    && DsChild(reference, "Transforms").Pass? && TransformsAllowed(DsChild(reference, "Transforms").value.Children())
    && HasAlgorithm(reference, "DigestMethod", ALG_SHA256)
    && DsChild(reference, "DigestValue").Pass?
  }

  /** A SignedInfo with the accepted algorithms and one good reference. */
  predicate GoodInfo(document: seq<Node>, element: Place, info: Place) {
    && HasAlgorithm(info, "CanonicalizationMethod", ALG_EXC_C14N)
    && HasAlgorithm(info, "SignatureMethod", ALG_RSA_SHA256)
    && |DsElements(info.Children(), info.Inner(), "Reference")| == 1
    && DsChild(info, "Reference").Pass? && GoodReference(document, element, DsChild(info, "Reference").value)
  }

  /** The bytes an element holds in base64, none for an element without text. */
  predicate Holds(crypto: Crypto, p: Place, bytes: Bytes) {
    match FirstText(p.node)
    case None => bytes == []
    case Some(text) => crypto.base64(Compact(text)) == Some(bytes)
  }

  /** What the element's canonical form without the signature is, as its reference asks for it. */
  function ContentToDigest(element: Place, signature: Place, reference: Place): string
    requires DsChild(reference, "Transforms").Pass?
  {
    CanonicalString(element.node, Some(signature.node.id),
                    TransformPrefixes(DsChild(reference, "Transforms").value.Children()), element.outer)
  }

  /** The canonical SignedInfo, as its CanonicalizationMethod asks for it. */
  function BytesToSign(info: Place): string
    requires DsChild(info, "CanonicalizationMethod").Pass?
  {
    CanonicalString(info.node, None, InclusivePrefixes(DsChild(info, "CanonicalizationMethod").value.node), info.outer)
  }

  /** The signature is there, is well formed, and pins the content and itself. */
  predicate ValidSignature(crypto: Crypto, document: seq<Node>, element: Place, signature: Place, info: Place) {
    && DsChild(element, "Signature") == Pass(signature) && DsChild(signature, "SignedInfo") == Pass(info)
    && GoodInfo(document, element, info)
    && (var reference := DsChild(info, "Reference").value;
        Holds(crypto, DsChild(reference, "DigestValue").value,
              crypto.digest(ContentToDigest(element, signature, reference))))
    && DsChild(signature, "SignatureValue").Pass?
    && Signs(crypto, DsChild(signature, "SignatureValue").value, BytesToSign(info))
  }

  /** The element holds a well-formed signature of the key over these bytes. */
  predicate Signs(crypto: Crypto, p: Place, bytes: string) {
    match FirstText(p.node)
    case None => crypto.wellFormed([]) && crypto.verifies(bytes, [])
    case Some(text) =>
      match crypto.base64(Compact(text))
      case None => false
      case Some(value) => crypto.wellFormed(value) && crypto.verifies(bytes, value)
  }

  // ----------------------------------------------------------- transforms

  /** Reading transforms succeeds exactly on the known ones, and collects their prefixes in order. */
  lemma {:induction false} TransformsExactly(nodes: seq<Node>, sofar: Transforms)
    ensures ReadTransforms(nodes, sofar).Pass? <==>
            forall n <- nodes :: IsTransform(n) ==>
              AttributeValue(n, "Algorithm") == Some(ALG_ENVELOPED) || AttributeValue(n, "Algorithm")
                == Some(ALG_EXC_C14N)
    ensures ReadTransforms(nodes, sofar).Pass? ==>
              && ReadTransforms(nodes, sofar).value.prefixes == sofar.prefixes + TransformPrefixes(nodes)
              && (ReadTransforms(nodes, sofar).value.enveloped <==>
                  sofar.enveloped
                  || exists n <- nodes :: IsTransform(n) && AttributeValue(n, "Algorithm") == Some(ALG_ENVELOPED))
    decreases nodes
  {
    if nodes != [] {
      var first, rest := nodes[0], nodes[1..];
      assert nodes == [first] + rest;
      AlgorithmsDiffer();
      TransformsExactly(rest, sofar);
      TransformsExactly(rest, sofar.(enveloped := true));
      TransformsExactly(rest, sofar.(prefixes := sofar.prefixes + InclusivePrefixes(first)));
      TransformStep(nodes, sofar);
    }
  }

  lemma AlgorithmsDiffer()
    ensures ALG_ENVELOPED != ALG_EXC_C14N && ALG_ENVELOPED != "" && ALG_EXC_C14N != ""
  {
    assert |ALG_ENVELOPED| != |ALG_EXC_C14N|;
  }

  lemma TransformStep(nodes: seq<Node>, sofar: Transforms)
    requires nodes != []
    ensures var first, rest := nodes[0], nodes[1..];
            var algorithm := AttributeValue(first, "Algorithm");
            && (!IsTransform(first) ==> ReadTransforms(nodes, sofar) == ReadTransforms(rest, sofar)
                                        && TransformPrefixes(nodes) == TransformPrefixes(rest))
            && (IsTransform(first) && algorithm == Some(ALG_ENVELOPED) ==>
                  && ReadTransforms(nodes, sofar) == ReadTransforms(rest, sofar.(enveloped := true))
                  && TransformPrefixes(nodes) == TransformPrefixes(rest))
            && (IsTransform(first) && algorithm == Some(ALG_EXC_C14N) ==>
                  var more := sofar.prefixes + InclusivePrefixes(first);
                  && ReadTransforms(nodes, sofar) == ReadTransforms(rest, sofar.(prefixes := more))
                  && sofar.prefixes + TransformPrefixes(nodes) == more + TransformPrefixes(rest))
            && (IsTransform(first) && algorithm != Some(ALG_ENVELOPED) && algorithm != Some(ALG_EXC_C14N) ==>
                  ReadTransforms(nodes, sofar).Fail?)
  {
    AlgorithmsDiffer();
    assert sofar.prefixes + (InclusivePrefixes(nodes[0]) + TransformPrefixes(nodes[1..]))
        == sofar.prefixes + InclusivePrefixes(nodes[0]) + TransformPrefixes(nodes[1..]);
  }

  /** A listed prefix is a word of the PrefixList of an InclusiveNamespaces child. */
  lemma {:induction false} ListedPrefix(nodes: seq<Node>, p: string)
    ensures p in PrefixLists(nodes) <==>
            exists n <- nodes :: n.Element? && Local(n.qname) == "InclusiveNamespaces"
                                 && AttributeValue(n, "PrefixList").Some?
                                   && p in Words(AttributeValue(n, "PrefixList").value)
  {
    if nodes != [] {
      ListedPrefix(nodes[1..], p);
      assert nodes == [nodes[0]] + nodes[1..];
      assert Words("") == [];
    }
  }

  /** The words of a PrefixList are its maximal stretches without white space, from left to right. */
  lemma PrefixListWords(list: string) returns (spans: seq<Splitting.Span>)
    ensures Splitting.AreWords(list, spans, Whitespace) && Splitting.Inside(list, spans)
    ensures Words(list) == Splitting.Texts(list, spans)
  {
    spans := Splitting.SplitIsWords(list, Whitespace);
  }

  /** The signature-namespace elements of a name are all such siblings, in order; `at` are their places. */
  lemma {:induction false} DsElementsAll(nodes: seq<Node>, outer: seq<Namespace>, name: string) returns (at: seq<nat>)
    ensures |at| == |DsElements(nodes, outer, name)|
    ensures forall k :: 0 <= k < |at| ==>
              at[k] < |nodes| && IsDs(nodes[at[k]], outer, name) && DsElements(nodes, outer, name)[k] == nodes[at[k]]
    ensures forall j, k :: 0 <= j < k < |at| ==> at[j] < at[k]
    ensures forall i :: 0 <= i < |nodes| && IsDs(nodes[i], outer, name) ==> i in at
  {
    var keep := (n: Node) => IsDs(n, outer, name);
    DsElementsFilter(nodes, outer, name, keep);
    at := FilterAll(nodes, keep);
  }

  lemma {:induction false} DsElementsFilter(nodes: seq<Node>, outer: seq<Namespace>, name: string, keep: Node -> bool)
    requires forall n :: keep(n) == IsDs(n, outer, name)
    ensures DsElements(nodes, outer, name) == Filter(nodes, keep)
  {
    if nodes != [] {
      DsElementsFilter(nodes[1..], outer, name, keep);
    }
  }

  /** Base64 text is read without its white space and is otherwise unchanged. */
  lemma {:induction false} CompactExactly(a: string, c: char, b: string)
    ensures Compact(a + [c] + b) == Compact(a) + (if Whitespace(c) then "" else [c]) + Compact(b)
    ensures Compact("") == ""
  {
    if a == "" {
      assert a + [c] + b == [c] + b;
      CompactCons(c, b);
    } else {
      assert a + [c] + b == [a[0]] + (a[1..] + [c] + b) && a == [a[0]] + a[1..];
      CompactCons(a[0], a[1..] + [c] + b);
      CompactCons(a[0], a[1..]);
      CompactExactly(a[1..], c, b);
      var head, middle := if Whitespace(a[0]) then "" else [a[0]], if Whitespace(c) then "" else [c];
      assert head + (Compact(a[1..]) + middle + Compact(b)) == head + Compact(a[1..]) + middle + Compact(b);
    }
  }

  lemma CompactCons(c: char, rest: string)
    ensures Compact([c] + rest) == (if Whitespace(c) then "" else [c]) + Compact(rest)
  {
    assert ([c] + rest)[1..] == rest;
  }

  /** An element without a direct signature is refused as unsigned, and only then. */
  lemma UnsignedRefused(crypto: Crypto, document: seq<Node>, element: Place)
    ensures Verify(crypto, document, element) == Fail(NoSignature) <==>
            forall n <- element.Children() :: !IsDs(n, element.Inner(), "Signature")
  {
    var at := DsElementsAll(element.Children(), element.Inner(), "Signature");
    ReadUnsigned(crypto, document, element);
    VerifyReasons(crypto, document, element);
    if at != [] {
      assert element.Children()[at[0]] in element.Children();
    }
  }

  lemma ReadUnsigned(crypto: Crypto, document: seq<Node>, element: Place)
    ensures ReadSignature(crypto, document, element) == Fail(NoSignature) <==> DsChild(element, "Signature").Fail?
  {
    var signature := DsChild(element, "Signature");
    if signature.Pass? {
      var info := DsChild(signature.value, "SignedInfo");
      if info.Pass? {
        InfoRefusals(crypto, document, element, signature.value, info.value);
      }
    }
  }

  lemma VerifyReasons(crypto: Crypto, document: seq<Node>, element: Place)
    ensures Verify(crypto, document, element) == Fail(NoSignature) <==>
            ReadSignature(crypto, document, element) == Fail(NoSignature)
  {
    if ReadSignature(crypto, document, element).Pass? {
      LateReasons(crypto, document, element, ReadSignature(crypto, document, element).value);
    }
  }

  lemma LateReasons(crypto: Crypto, document: seq<Node>, element: Place, parts: Parts)
    requires ReadSignature(crypto, document, element) == Pass(parts)
    ensures Verify(crypto, document, element) != Fail(NoSignature)
  {
  }

  /** No later check answers that there is no signature. */
  lemma InfoRefusals(crypto: Crypto, document: seq<Node>, element: Place, signature: Place, info: Place)
    ensures ReadSignedInfo(crypto, document, element, signature, info) != Fail(NoSignature)
  {
    if DsChild(info, "Reference").Pass? {
      ReferenceRefusals(crypto, document, element, DsChild(info, "Reference").value);
    }
  }

  lemma ReferenceRefusals(crypto: Crypto, document: seq<Node>, element: Place, reference: Place)
    ensures ReadReference(crypto, document, element, reference) != Fail(NoSignature)
  {
    if DsChild(reference, "Transforms").Pass? {
      TransformRefusals(DsChild(reference, "Transforms").value.Children(), Transforms(false, []));
    }
  }

  lemma {:induction false} TransformRefusals(nodes: seq<Node>, sofar: Transforms)
    ensures ReadTransforms(nodes, sofar).Fail? ==> ReadTransforms(nodes, sofar).reason == UnsupportedTransform
    decreases nodes
  {
    if nodes != [] {
      TransformRefusals(nodes[1..], sofar);
      TransformRefusals(nodes[1..], sofar.(enveloped := true));
      TransformRefusals(nodes[1..], sofar.(prefixes := sofar.prefixes + InclusivePrefixes(nodes[0])));
    }
  }

  // ------------------------------------------------------ reading, exactly

  lemma MethodsExactly(info: Place)
    ensures ReadMethods(info).Pass? <==>
            HasAlgorithm(info, "CanonicalizationMethod", ALG_EXC_C14N)
            && HasAlgorithm(info, "SignatureMethod", ALG_RSA_SHA256)
    ensures ReadMethods(info).Pass? ==>
              ReadMethods(info).value == InclusivePrefixes(DsChild(info, "CanonicalizationMethod").value.node)
  {
  }

  lemma HoldsDecoded(crypto: Crypto, p: Place, bytes: Bytes)
    ensures DecodedText(crypto, p.node) == Pass(bytes) <==> Holds(crypto, p, bytes)
  {
  }

  /** The reference names the element. */
  lemma UriNames(element: Place, uri: string)
    ensures "#" <= uri && AttributeValue(element.node, "ID") == Some(uri[1..]) <==>
            AttributeValue(element.node, "ID").Some? && uri == "#" + AttributeValue(element.node, "ID").value
  {
  }

  lemma ReferenceExactly(crypto: Crypto, document: seq<Node>, element: Place, reference: Place)
    ensures ReadReference(crypto, document, element, reference).Pass? <==>
            GoodReference(document, element, reference)
            && DecodedText(crypto, DsChild(reference, "DigestValue").value.node).Pass?
    ensures ReadReference(crypto, document, element, reference).Pass? ==>
              && ReadReference(crypto, document, element, reference).value.0
                 == TransformPrefixes(DsChild(reference, "Transforms").value.Children())
              && DecodedText(crypto, DsChild(reference, "DigestValue").value.node)
                 == Pass(ReadReference(crypto, document, element, reference).value.1)
  {
    UriNames(element, AttributeValue(reference.node, "URI").GetOr(""));
    if DsChild(reference, "Transforms").Pass? {
      var nodes := DsChild(reference, "Transforms").value.Children();
      TransformsExactly(nodes, Transforms(false, []));
      assert [] + TransformPrefixes(nodes) == TransformPrefixes(nodes);
    }
  }

  lemma OnlyReferenceExactly(crypto: Crypto, document: seq<Node>, element: Place, info: Place)
    ensures ReadOnlyReference(crypto, document, element, info).Pass? <==>
            && |DsElements(info.Children(), info.Inner(), "Reference")| == 1 && DsChild(info, "Reference").Pass?
            && ReadReference(crypto, document, element, DsChild(info, "Reference").value).Pass?
    ensures ReadOnlyReference(crypto, document, element, info).Pass? ==>
              ReadOnlyReference(crypto, document, element, info)
              == ReadReference(crypto, document, element, DsChild(info, "Reference").value)
  {
  }

  lemma InfoExactly(crypto: Crypto, document: seq<Node>, element: Place, signature: Place, info: Place)
    ensures ReadSignedInfo(crypto, document, element, signature, info).Pass? <==>
            ReadMethods(info).Pass? && ReadOnlyReference(crypto, document, element, info).Pass?
    ensures ReadSignedInfo(crypto, document, element, signature, info).Pass? ==>
              ReadSignedInfo(crypto, document, element, signature, info).value
              == Parts(signature, info, ReadMethods(info).value,
                       ReadOnlyReference(crypto, document, element, info).value.0,
                       ReadOnlyReference(crypto, document, element, info).value.1)
  {
  }

  /** What is read of a signature before anything is compared. */
  lemma SignedInfoExactly(crypto: Crypto, document: seq<Node>, element: Place, signature: Place, info: Place)
    ensures ReadSignedInfo(crypto, document, element, signature, info).Pass? <==>
            GoodInfo(document, element, info)
            && DecodedText(crypto, DsChild(DsChild(info, "Reference").value, "DigestValue").value.node).Pass?
    ensures ReadSignedInfo(crypto, document, element, signature, info).Pass? ==>
              var parts := ReadSignedInfo(crypto, document, element, signature, info).value;
              var reference := DsChild(info, "Reference").value;
              && parts.signature == signature && parts.info == info
              && SignedContent(element, parts) == ContentToDigest(element, signature, reference)
              && SignedBytes(parts) == BytesToSign(info)
              && DecodedText(crypto, DsChild(reference, "DigestValue").value.node) == Pass(parts.digestValue)
  {
    InfoExactly(crypto, document, element, signature, info);
    MethodsExactly(info);
    OnlyReferenceExactly(crypto, document, element, info);
    if DsChild(info, "Reference").Pass? {
      ReferenceExactly(crypto, document, element, DsChild(info, "Reference").value);
    }
  }

  lemma SignatureExactly(crypto: Crypto, document: seq<Node>, element: Place)
    ensures ReadSignature(crypto, document, element).Pass? <==>
            && DsChild(element, "Signature").Pass? && DsChild(DsChild(element, "Signature").value, "SignedInfo").Pass?
            && ReadSignedInfo(crypto, document, element, DsChild(element, "Signature").value,
                              DsChild(DsChild(element, "Signature").value, "SignedInfo").value).Pass?
    ensures ReadSignature(crypto, document, element).Pass? ==>
              ReadSignature(crypto, document, element)
              == ReadSignedInfo(crypto, document, element, DsChild(element, "Signature").value,
                                DsChild(DsChild(element, "Signature").value, "SignedInfo").value)
  {
  }

  /** The checks after a signature has been read. */
  lemma LastChecks(crypto: Crypto, document: seq<Node>, element: Place)
    requires ReadSignature(crypto, document, element).Pass?
    ensures var parts := ReadSignature(crypto, document, element).value;
            var same := crypto.digest(SignedContent(element, parts)) == parts.digestValue;
            var value := DsChild(parts.signature, "SignatureValue");
            && (Verify(crypto, document, element) == Pass(parts) <==>
                same && value.Pass? && Signs(crypto, value.value, SignedBytes(parts)))
            && (Verify(crypto, document, element).Pass? ==> Verify(crypto, document, element) == Pass(parts))
            && (Verify(crypto, document, element) == Fail(DigestMismatch) <==> !same)
            && (Verify(crypto, document, element) == Fail(BadSignature) <==>
                && same && value.Pass? && DecodedText(crypto, value.value.node).Pass?
                && crypto.wellFormed(DecodedText(crypto, value.value.node).value)
                && !crypto.verifies(SignedBytes(parts), DecodedText(crypto, value.value.node).value))
  {
  }

  // ---------------------------------------------------------------- theorem

  /**
    An element is accepted exactly when its signature is valid: the accepted
    algorithms and transforms and no others, one reference to this element by an ID
    that nothing else carries, the digest of the canonical content, and a signature
    of the configured key over the canonical SignedInfo.
   */
  lemma AcceptedExactly(crypto: Crypto, document: seq<Node>, element: Place)
    ensures Verify(crypto, document, element).Pass? <==>
            exists signature, info :: ValidSignature(crypto, document, element, signature, info)
    ensures Verify(crypto, document, element).Pass? ==>
              var parts := Verify(crypto, document, element).value;
              && ValidSignature(crypto, document, element, parts.signature, parts.info)
              && SignedBytes(parts) == BytesToSign(parts.info)
  {
    SignatureExactly(crypto, document, element);
    if DsChild(element, "Signature").Pass? && DsChild(DsChild(element, "Signature").value, "SignedInfo").Pass? {
      var signature := DsChild(element, "Signature").value;
      var info := DsChild(signature, "SignedInfo").value;
      SignedInfoExactly(crypto, document, element, signature, info);
      ReadIsValid(crypto, document, element, signature, info);
    }
  }

  lemma ReadIsValid(crypto: Crypto, document: seq<Node>, element: Place, signature: Place, info: Place)
    requires DsChild(element, "Signature") == Pass(signature) && DsChild(signature, "SignedInfo") == Pass(info)
    ensures Verify(crypto, document, element).Pass? <==> ValidSignature(crypto, document, element, signature, info)
    ensures Verify(crypto, document, element).Pass? ==>
              var parts := Verify(crypto, document, element).value;
              parts.signature == signature && parts.info == info && SignedBytes(parts) == BytesToSign(info)
  {
    SignatureExactly(crypto, document, element);
    SignedInfoExactly(crypto, document, element, signature, info);
    if ReadSignature(crypto, document, element).Pass? {
      LastChecks(crypto, document, element);
      var reference := DsChild(info, "Reference").value;
      HoldsDecoded(crypto, DsChild(reference, "DigestValue").value,
                   crypto.digest(ContentToDigest(element, signature, reference)));
    } else if ValidSignature(crypto, document, element, signature, info) {
      var reference := DsChild(info, "Reference").value;
      HoldsDecoded(crypto, DsChild(reference, "DigestValue").value,
                   crypto.digest(ContentToDigest(element, signature, reference)));
    }
  }

  /** In particular no element is accepted whose SignedInfo the configured key did not sign. */
  lemma AcceptedIsSigned(crypto: Crypto, document: seq<Node>, element: Place)
    requires Verify(crypto, document, element).Pass?
    ensures var parts := Verify(crypto, document, element).value;
            && DsChild(parts.signature, "SignatureValue").Pass?
            && var value := DecodedText(crypto, DsChild(parts.signature, "SignatureValue").value.node);
               value.Pass? && crypto.wellFormed(value.value) && crypto.verifies(SignedBytes(parts), value.value)
  {
    SignatureExactly(crypto, document, element);
    LastChecks(crypto, document, element);
  }
}
