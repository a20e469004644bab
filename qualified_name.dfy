/** Qualified XML names: a namespace URI and a local name, how they print for debugging, how they
    hash, and how a `prefix:localName` string found in a document is turned into one. */
module QualifiedNames {
  import opened Wrappers
  import opened Text
  import opened Xml

  datatype QualifiedName = QualifiedName(uri: string, localName: string)

  /** The one error a qualified-name reading throws. */
  datatype QNameError = InvalidNamespacePrefix

  /** `debugDescription`: "(uri)localName". */
  function DebugDescription(q: QualifiedName): string {
    "(" + q.uri + ")" + q.localName
  }

  /** Reads a debug description back: the URI runs up to the first ')'. */
  function ParseDebugDescription(s: string): Option<QualifiedName> {
    if |s| > 0 && s[0] == '(' && ')' in s[1..] then
      var i := IndexOf(s[1..], ')');
      Some(QualifiedName(s[1..][..i], s[1..][i + 1..]))
    else None
  }

  /** A URI without ')' survives the debug description, so distinct such names print differently. */
  lemma DebugDescriptionRoundTrip(q: QualifiedName)
    requires ')' !in q.uri
    ensures ParseDebugDescription(DebugDescription(q)) == Some(q)
  {
    var s := DebugDescription(q);
    var t := s[1..];
    assert t == q.uri + ")" + q.localName;
    assert t[|q.uri|] == ')';
    var i := IndexOf(t, ')');
    assert i == |q.uri| by { assert t[..|q.uri|] == q.uri; }
    assert t[..i] == q.uri;
    assert t[i + 1..] == q.localName;
  }

  lemma DebugDescriptionInjective(a: QualifiedName, b: QualifiedName)
    requires ')' !in a.uri && ')' !in b.uri
    requires DebugDescription(a) == DebugDescription(b)
    ensures a == b
  {
    DebugDescriptionRoundTrip(a);
    DebugDescriptionRoundTrip(b);
  }

  /** `==`: both the URI and the local name agree. */
  predicate Equals(a: QualifiedName, b: QualifiedName) {
    a.uri == b.uri && a.localName == b.localName
  }

  /** `hashValue`: `uri.hashValue % 17 + localName.hashValue`, for a string hash the model does not fix.
      The addition is Swift's trapping `+`, so the sum must fit in an `Int`. */
  function Hash(q: QualifiedName, stringHash: string -> Int64): (h: Int64)
    requires INT_MIN <= TruncRem(stringHash(q.uri), 17) + stringHash(q.localName) <= INT_MAX
  {
    TruncRem(stringHash(q.uri), 17) + stringHash(q.localName)
  }

  /** `==` is field-wise equality, and names that are `==` hash alike. */
  lemma EqualsConsistentWithHash(a: QualifiedName, b: QualifiedName, stringHash: string -> Int64)
    requires INT_MIN <= TruncRem(stringHash(a.uri), 17) + stringHash(a.localName) <= INT_MAX
    requires Equals(a, b)
    ensures a == b
    ensures INT_MIN <= TruncRem(stringHash(b.uri), 17) + stringHash(b.localName) <= INT_MAX
    ensures Hash(a, stringHash) == Hash(b, stringHash)
  {
  }

  /** SchemaParser's `QualifiedName(type:inTree:)`: the string must carry a prefix, and the prefix
      must be bound in the scope; the local name is what follows the prefix. */
  function FromPrefixedType(typeName: string, scope: seq<Frame>): (r: Result<QualifiedName, QNameError>)
    ensures ':' !in typeName ==> r == Err(InvalidNamespacePrefix)
    ensures r.Ok? <==> ':' in typeName && LookupPrefix(scope, PrefixOf(typeName)).Some?
    ensures r.Ok? ==> r.value.uri == LookupPrefix(scope, PrefixOf(typeName)).value
                      && r.value.localName == LocalPartOf(typeName)
  {
    if ':' !in typeName then Err(InvalidNamespacePrefix)
    else match LookupPrefix(scope, PrefixOf(typeName))
      case None => Err(InvalidNamespacePrefix)
      case Some(uri) => Ok(QualifiedName(uri, LocalPartOf(typeName)))
  }

  /** Lark's `QualifiedName(type:inTree:)`: a prefixed string resolves its prefix; an unprefixed one
      takes the inherited targetNamespace; either lookup failing is invalidNamespacePrefix. */
  function FromType(typeName: string, scope: seq<Frame>): (r: Result<QualifiedName, QNameError>)
    ensures ':' in typeName ==> r == FromPrefixedType(typeName, scope)
    ensures ':' !in typeName ==>
              r == if ScopeTargetNamespace(scope).Some?
                   then Ok(QualifiedName(ScopeTargetNamespace(scope).value, typeName))
                   else Err(InvalidNamespacePrefix)
  {
    if ':' in typeName then
      match LookupPrefix(scope, PrefixOf(typeName))
      case None => Err(InvalidNamespacePrefix)
      case Some(uri) => Ok(QualifiedName(uri, LocalPartOf(typeName)))
    else
      match ScopeTargetNamespace(scope)
      case None => Err(InvalidNamespacePrefix)
      case Some(tns) => Ok(QualifiedName(tns, LocalPartOf(typeName)))
  }

  /** Writing a name as "prefix:localName" with a prefix bound to its URI and reading it back in the
      same scope gives the name again, in both readers. */
  lemma PrefixedRoundTrip(prefix: string, q: QualifiedName, scope: seq<Frame>)
    requires prefix != "" && ':' !in prefix
    requires LookupPrefix(scope, prefix) == Some(q.uri)
    ensures FromPrefixedType(QualifiedText(prefix, q.localName), scope) == Ok(q)
    ensures FromType(QualifiedText(prefix, q.localName), scope) == Ok(q)
  {
    QualifiedTextSplits(prefix, q.localName);
    assert (prefix + ":" + q.localName)[|prefix|] == ':';
  }

  /** A bare local name read in a scope whose targetNamespace is the name's URI gives the name. */
  lemma UnprefixedRoundTrip(q: QualifiedName, scope: seq<Frame>)
    requires ':' !in q.localName
    requires ScopeTargetNamespace(scope) == Some(q.uri)
    ensures FromType(q.localName, scope) == Ok(q)
    ensures FromPrefixedType(q.localName, scope).Err?
  {
  }

  /** `QualifiedName.name(ofElement:)`: the element's @name in its (inherited) targetNamespace, or
      none when either is missing. */
  function NameOfElement(c: Cursor): (r: Option<QualifiedName>)
    ensures r.Some? <==> "name" in c.element.attributes && TargetNamespace(c).Some?
    ensures r.Some? ==> r.value == QualifiedName(TargetNamespace(c).value, c.element.attributes["name"])
  {
    if "name" !in c.element.attributes then None
    else match TargetNamespace(c)
      case None => None
      case Some(tns) => Some(QualifiedName(tns, c.element.attributes["name"]))
  }

  /** The name depends on the @name attribute and the targetNamespace only: two elements that agree
      on those get the same name whatever their tags, children or namespaces. */
  lemma NameOfElementIgnoresTag(c: Cursor, d: Cursor)
    requires ("name" in c.element.attributes) == ("name" in d.element.attributes)
    requires "name" in c.element.attributes ==> c.element.attributes["name"] == d.element.attributes["name"]
    requires TargetNamespace(c) == TargetNamespace(d)
    ensures NameOfElement(c) == NameOfElement(d)
  {
  }
}
