/** LarkRuntime's extensions of `XMLElement` (Sources/LarkRuntime/Utils.swift). Unlike Lark's, an
    empty prefix is allowed and gives the bare local name, and `createElement` adds no namespace: a
    URI without a prefix in scope is an error, and the new element is returned unattached. */
module RuntimeUtils {
  import opened Wrappers
  import opened Text
  import opened Xml
  import opened Dom
  import opened Serialization
  import LarkUtils

  method WithPrefix(prefix: string, localName: string, namespaceUri: string) returns (e: XMLElement)
    ensures fresh(e)
    ensures e.name == QualifiedText(prefix, localName) && e.uri == Some(namespaceUri)
    ensures e.namespaces == [] && e.children == [] && e.stringValue == None && e.ancestors == []
  {
    var name := if prefix != "" then prefix + ":" + localName else localName;
    e := new XMLElement(name, Some(namespaceUri));
  }

  /** `createElement(localName:uri:stringValue:)`: named under the prefix the URI resolves to in
      the element's scope, or `invalidNamespace(uri)` when it resolves to none. The element
      itself is not changed. When the resolved prefix reads back, the new name's prefix denotes
      the URI in that scope. */
  method CreateElement(element: XMLElement, localName: string, namespaceUri: string, value: Option<string>)
    returns (r: Result<XMLElement, SerializationError>)
    ensures r.Err? <==> element.ResolvePrefix(namespaceUri).None?
    ensures r.Err? ==> r.error == InvalidNamespace(namespaceUri)
    ensures r.Ok? ==> fresh(r.value)
                      && r.value.name == QualifiedText(element.ResolvePrefix(namespaceUri).value, localName)
                      && r.value.uri == Some(namespaceUri) && r.value.stringValue == value
                      && r.value.namespaces == [] && r.value.children == [] && r.value.ancestors == []
    ensures r.Ok? && PrefixReadsBack(element.Scope(), namespaceUri) ==>
              LookupPrefix(element.Scope(), PrefixOf(r.value.name)) == Some(namespaceUri)
  {
    var prefix := element.ResolvePrefix(namespaceUri);
    if prefix.None? {
      return Err(InvalidNamespace(namespaceUri));
    }
    var created := WithPrefix(prefix.value, localName, namespaceUri);
    created.SetStringValue(value);
    if PrefixReadsBack(element.Scope(), namespaceUri) {
      QualifiedTextSplits(prefix.value, localName);
    }
    r := Ok(created);
  }

  /** `XMLNode.attribute(prefix:localName:uri:stringValue:)`, where an empty prefix gives the bare
      local name. */
  function Attribute(prefix: string, localName: string, namespaceUri: string, value: string): (a: LarkUtils.AttributeNode)
    ensures a.uri == namespaceUri && a.value == value
    ensures prefix == "" ==> a.name == localName
    ensures prefix != "" ==> a.name == prefix + ":" + localName
    ensures prefix != "" && ':' !in prefix ==> PrefixOf(a.name) == prefix && LocalPartOf(a.name) == localName
  {
    var a := LarkUtils.AttributeNode(QualifiedText(prefix, localName), namespaceUri, value);
    if prefix != "" && ':' !in prefix then QualifiedTextSplits(prefix, localName); a else a
  }
}
