/** Prefix bindings as a stack of declarations, and what `addBinding` accepts. */
module Environment {
  import opened Bytes
  import opened Common

  datatype NsError = UndeclaringPrefix | ReservedPrefixXmlns | ReservedPrefixXml | ReservedNamespaceUri | UnboundPrefix

  // "http://www.w3.org/XML/1998/namespace"
  const XML_NAMESPACE: Octets := [
    0x68, 0x74, 0x74, 0x70, 0x3A, 0x2F, 0x2F, 0x77, 0x77, 0x77, 0x2E, 0x77, 0x33, 0x2E, 0x6F, 0x72, 0x67, 0x2F,
    0x58, 0x4D, 0x4C, 0x2F, 0x31, 0x39, 0x39, 0x38, 0x2F, 0x6E, 0x61, 0x6D, 0x65, 0x73, 0x70, 0x61, 0x63, 0x65]

  // "http://www.w3.org/2000/xmlns/"
  const XMLNS_NAMESPACE: Octets := [
    0x68, 0x74, 0x74, 0x70, 0x3A, 0x2F, 0x2F, 0x77, 0x77, 0x77, 0x2E, 0x77, 0x33, 0x2E, 0x6F, 0x72, 0x67, 0x2F,
    0x32, 0x30, 0x30, 0x30, 0x2F, 0x78, 0x6D, 0x6C, 0x6E, 0x73, 0x2F]

  const XML: Octets := [0x78, 0x6D, 0x6C]
  const XMLNS: Octets := [0x78, 0x6D, 0x6C, 0x6E, 0x73]

  /** The constraints of Namespaces in XML 1.0, sections 3 and 5, on a declaration. */
  function Refusal(prefix: Option<Octets>, uri: Octets): Option<NsError> {
    if uri == [] && prefix.Some? then Some(UndeclaringPrefix)
    else if prefix == Some(XMLNS) then Some(ReservedPrefixXmlns)
    else if (prefix == Some(XML)) != (uri == XML_NAMESPACE) then
      Some(if prefix == Some(XML) then ReservedPrefixXml else ReservedNamespaceUri)
    else if uri == XMLNS_NAMESPACE then Some(ReservedNamespaceUri)
    else None
  }

  /** The text so far agrees with the name of a reserved namespace. */
  ghost predicate Follows(uri: Octets, reserved: Octets, k: nat)
    requires k <= |uri|
  {
    uri[..k] == reserved[..if k < |reserved| then k else |reserved|]
  }

  lemma FollowsMore(uri: Octets, reserved: Octets, k: nat)
    requires k < |uri|
    ensures Follows(uri, reserved, k + 1) <==> (k < |reserved| && Follows(uri, reserved, k) && uri[k] == reserved[k])
  {
  }

  lemma FollowsAll(uri: Octets, reserved: Octets)
    ensures Follows(uri, reserved, |uri|) && |uri| == |reserved| <==> uri == reserved
    ensures Follows(uri, reserved, 0)
  {
  }

  /** The checks at the start of addBinding: one pass over the URI, against both reserved names at once. */
  method CheckBinding(prefix: Option<Octets>, uri: Octets) returns (error: Option<NsError>)
    ensures error == Refusal(prefix, uri)
  {
    if uri == [] && prefix.Some? {
      return Some(UndeclaringPrefix);
    }
    var mustBeXml := false;
    if prefix.Some? && |prefix.value| >= 3 && prefix.value[..3] == XML {
      if |prefix.value| == 5 && prefix.value[3] == 0x6E && prefix.value[4] == 0x73 {
        PrefixIs(prefix.value);
        return Some(ReservedPrefixXmlns);
      }
      if |prefix.value| == 3 {
        mustBeXml := true;
      }
    }
    if prefix.Some? {
      PrefixIs(prefix.value);
    }
    var isXml, isXmlns := true, true;
    FollowsAll(uri, XML_NAMESPACE);
    FollowsAll(uri, XMLNS_NAMESPACE);
    for len := 0 to |uri|
      invariant isXml == Follows(uri, XML_NAMESPACE, len)
      invariant !mustBeXml ==> isXmlns == Follows(uri, XMLNS_NAMESPACE, len)
    {
      FollowsMore(uri, XML_NAMESPACE, len);
      FollowsMore(uri, XMLNS_NAMESPACE, len);
      if isXml && (len >= |XML_NAMESPACE| || uri[len] != XML_NAMESPACE[len]) {
        isXml := false;
      }
      if !mustBeXml && isXmlns && (len >= |XMLNS_NAMESPACE| || uri[len] != XMLNS_NAMESPACE[len]) {
        isXmlns := false;
      }
    }
    isXml := isXml && |uri| == |XML_NAMESPACE|;
    isXmlns := isXmlns && |uri| == |XMLNS_NAMESPACE|;
    if mustBeXml != isXml {
      return Some(if mustBeXml then ReservedPrefixXml else ReservedNamespaceUri);
    }
    if isXmlns {
      NamespacesDiffer();
      return Some(ReservedNamespaceUri);
    }
    error := None;
  }

  lemma PrefixIs(p: Octets)
    ensures p == XMLNS <==> |p| == 5 && p[..3] == XML && p[3] == 0x6E && p[4] == 0x73
    ensures p == XML <==> |p| == 3 && p[..3] == XML
  {
  }

  /** The reserved names, as the standard writes them. */
  lemma ReservedPrefixes()
    ensures XML == Ascii("xml") && XMLNS == Ascii("xmlns")
  {
  }

  lemma XmlNamespaceIs()
    ensures XML_NAMESPACE == Ascii("http://www.w3.org/XML/1998/namespace")
  {
  }

  lemma XmlnsNamespaceIs()
    ensures XMLNS_NAMESPACE == Ascii("http://www.w3.org/2000/xmlns/")
  {
  }

  lemma NamespacesDiffer()
    ensures XML_NAMESPACE != XMLNS_NAMESPACE
  {
  }
}
