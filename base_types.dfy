/** The generator's table of built-in XML Schema types and the Swift identifiers they map to. */
module BaseTypes {
  import opened QualifiedNames
  import Xml

  /** The XML Schema namespace the table's names live in. */
  const NS_XSD := Xml.NS_XS

  function Xs(localName: string): QualifiedName {
    QualifiedName(NS_XSD, localName)
  }

  /** `baseTypes`. */
  const Table: map<QualifiedName, string> := map[
    Xs("byte") := "Int8",
    Xs("unsignedByte") := "UInt8",
    Xs("short") := "Int16",
    Xs("unsignedShort") := "UInt16",
    Xs("int") := "Int32",
    Xs("unsignedInt") := "UInt32",
    Xs("long") := "Int64",
    Xs("unsignedLong") := "UInt64",
    Xs("boolean") := "Bool",
    Xs("float") := "Float",
    Xs("double") := "Double",
    Xs("integer") := "Int",
    Xs("decimal") := "Decimal",
    Xs("string") := "String",
    Xs("anyURI") := "URL",
    Xs("base64Binary") := "Data",
    Xs("dateTime") := "Date",
    Xs("duration") := "TimeInterval",
    Xs("QName") := "QualifiedName",
    Xs("anyType") := "Any"
  ]

  /** The twenty local names of the table. */
  const LocalNames: set<string> := {"byte", "unsignedByte", "short", "unsignedShort", "int",
                                    "unsignedInt", "long", "unsignedLong", "boolean", "float",
                                    "double", "integer", "decimal", "string", "anyURI",
                                    "base64Binary", "dateTime", "duration", "QName", "anyType"}

  /** The table holds exactly the XML Schema names with those local names. */
  lemma TableKeys()
    ensures forall q :: q in Table <==> q.uri == NS_XSD && q.localName in LocalNames
  {
  }

  /** A few of the mappings the generated code relies on. */
  lemma TableMappings()
    ensures Table[Xs("int")] == "Int32" && Table[Xs("integer")] == "Int" && Table[Xs("anyType")] == "Any"
    ensures Table[Xs("string")] == "String" && Table[Xs("boolean")] == "Bool"
  {
  }
}
