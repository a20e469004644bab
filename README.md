# Lark, modelled in Dafny

Lark is a Swift toolkit for SOAP web services. It has three parts:

- **SchemaParser** reads WSDL 1.1 descriptions and XML Schema documents into typed values.
- **CodeGenerator** checks that every reference in a parsed description lands on something declared, and then turns the schema types and services into descriptions of Swift classes, enums and clients.
- Two runtime libraries, **Lark** and the later **LarkRuntime**, carry the code that generated clients call. They encode and decode base values as element text, manage namespace prefixes, build and read SOAP envelopes and faults, check responses, and provide a `Result` type.

This project models the core of those parts, plus two more pieces:

- the generated demo client for a "hello world" service;
- the diff that the generator's test suite uses to compare code.

Each model states and proves what the code promises.

## Structure

XML comes in two forms, because the repository uses it in two ways:

- **`Xml`**: the parsers read documents that are never changed. Here a parsed document is an immutable tree of element values. A cursor keeps every ancestor's namespace declarations and attributes, so that prefixes and the inherited `targetNamespace` resolve the way they do through Foundation's parent chain.
- **`Dom`**: the runtime libraries build and change elements in place. Here an element is the class `Dom.XMLElement`, with shared children. `Dom` stands for Foundation's `XMLElement` and `XMLDocument`. They are not part of the repository, so `Dom` is part of the model's substrate and has no table rows.

The modules follow the repository's files:

- **Schema parsing.**
  - `XmlSchema` (Schema.swift): schema nodes, elements, occurrence ranges, simple and complex types, each picked by a fixed priority over the element's children, with its own error.
  - `WebServiceDescription` (WebServiceDescription.swift): messages, port types, bindings and services, with their skip rules, and the import worklist with its namespace check.
  - `LegacyWsdl` (WSDL.swift) and `LegacyXsd` (XSD.swift): the older readers.
  - `XsdEquality` (XSD+Extensions.swift).
  - `QualifiedNames`, `Dictionaries` and `ParseErrors` (the parsers' errors).
- **Reference checks.**
  - `Edges`: the "missing endpoints" loop, written once for all three verifiers.
  - `DescriptionVerify` (WebServiceDescription+verify.swift).
  - `WsdlVerify` (WSDL+verify.swift) and `Graphs` (Graph.swift), which share the node type and edge builders in `LegacyGraph`.
- **Code generation.**
  - `BaseTypes` and `Generator` (Generator.swift): the built-in type table and the unique naming of Swift classes.
  - `SwiftModels` (Models.swift).
  - Three generations of the schema-to-Swift mapping: `SchemaToSwift` (Schema+toSwift.swift), `XsdToSwift` (XSD+toSwift.swift) and `TypesToSwift` (Types.swift).
  - `ClientCode` (Client.swift).
- **Runtime.**
  - `Serialization` and `LarkTypes`: the value codecs.
  - `StringLists` (StringSerializableList.swift).
  - `LarkUtils` and `RuntimeUtils`: the Lark and LarkRuntime element helpers.
  - `LarkEnvelope` and `RuntimeEnvelope`.
  - `Faults`, `Validation` and `RuntimeResult` (Result.swift).
- **Demo and tests.**
  - `HelloWorld` (HelloWorldServiceClient.swift).
  - `SimpleDiff` (simplediff.swift).

How the Swift code maps onto Dafny:

- A throwing call is a function into `Wrappers.Result` or a method returning one. Its `Err` is the thrown error.
- A forced unwrap or a `fatalError()` is a precondition.
- Code that the repository calls but does not show is a parameter. This covers the Swift spelling of names, the fetching of imported schemas, a string's hash and the element codec of a list.
- Swift's `Int` is the 64-bit integer (`Text.Int64`). The fixed-width integer codecs state their range checks explicitly.

## Model

| member | source | states |
|---|---|---|
| `BaseTypes.TableKeys` | Sources/CodeGenerator/Generator.swift:73-96 | the built-in table holds exactly the twenty XML Schema names byte … anyType, all in the XML Schema namespace |
| `BaseTypes.TableMappings` | Sources/CodeGenerator/Generator.swift:78-94 | xs:int maps to Int32, xs:integer to Int, xs:anyType to Any, xs:string to String, xs:boolean to Bool |
| `Dictionaries.Dictionary` | Sources/SchemaParser/Utils.swift:2-8 | the keys are exactly the keys of the elements, and there are never more entries than elements |
| `Dictionaries.LastWins` | Sources/SchemaParser/Utils.swift:4-6 | the entry for a key holds the value of the last element with that key |
| `Dictionaries.DistinctKeysKeepEverything` | Sources/SchemaParser/Utils.swift:4-7 | with pairwise distinct keys the dictionary has one entry per element |
| `Dictionaries.EntriesComeFromElements` | Sources/SchemaParser/Utils.swift:4-6 | every entry is the key and the value of some element |
| `Dictionaries.BuildDictionary` | Sources/SchemaParser/Utils.swift:3-7 | the loop that assigns each element's value at its key builds the dictionary described by `Dictionary` |
| `QualifiedNames.DebugDescriptionRoundTrip` | Sources/SchemaParser/QualifiedName.swift:21-25 | "(uri)localName" can be read back into the name when the URI has no ')' |
| `QualifiedNames.DebugDescriptionInjective` | Sources/LarkRuntime/QualifiedName.swift:17-21 | two names whose URIs have no ')' and whose debug descriptions agree are equal |
| `QualifiedNames.EqualsConsistentWithHash` | Sources/Lark/QualifiedName.swift:23-33 | the hash, `uri.hashValue % 17 + localName.hashValue` with Swift's truncating `%`, is a function of URI and local name, the two parts `==` compares (a congruence, stated for the record) |
| `QualifiedNames.FromPrefixedType` | Sources/SchemaParser/QualifiedName.swift:12-18 | invalidNamespacePrefix when the text has no ':' or its prefix is unbound; otherwise the URI bound to the prefix and the text after it |
| `QualifiedNames.FromType` | Sources/Lark/QualifiedName.swift:35-50 | a prefixed text is read as SchemaParser reads it; an unprefixed one takes the inherited targetNamespace, and fails with invalidNamespacePrefix without one |
| `QualifiedNames.PrefixedRoundTrip` | Sources/Lark/QualifiedName.swift:37-41 | "prefix:localName" with the prefix bound to the URI reads back as the name, in both readers |
| `QualifiedNames.UnprefixedRoundTrip` | Sources/Lark/QualifiedName.swift:42-48 | a bare local name under a targetNamespace equal to the URI reads back as the name in Lark's reader and is refused by SchemaParser's |
| `QualifiedNames.NameOfElement` | Sources/SchemaParser/QualifiedName+XMLElement.swift:5-13 | a name exactly when the element has @name and an own or inherited targetNamespace, and then that namespace with @name |
| `QualifiedNames.NameOfElementIgnoresTag` | Sources/SchemaParser/QualifiedName+XMLElement.swift:5-13 | elements that agree on @name and on their targetNamespace get the same name, whatever their tags |
| `XmlSchema.FromNodes` | Sources/SchemaParser/Schema.swift:37-40 | a schema assembled from nodes keeps them and has no targetNamespace |
| `XmlSchema.OccursRange` | Sources/SchemaParser/Schema.swift:131-140 | no range exactly when neither bound is given; a missing minOccurs is 1, a missing maxOccurs is 1 and "unbounded" is `Int.max`; the range never has its upper bound below its lower one, because Swift refuses to form one |
| `XmlSchema.WellFormedChild` | Sources/SchemaParser/Schema.swift:165-166 | the forced unwraps of the occurrence numerals and of a derivation's @base, required of a node, hold of each of its element children |
| `XmlSchema.ParseImport` | Sources/SchemaParser/Schema.swift:104-110 | succeeds exactly when @namespace is present, keeping it and the optional @schemaLocation; otherwise importWithoutNamespace |
| `XmlSchema.ParseElement` | Sources/SchemaParser/Schema.swift:144-167 | elementWithoutName without @name, elementWithoutTargetNamespace without an inherited targetNamespace; otherwise it succeeds exactly when `ElementContentOf` does, failing with its error, and the element is @name in that namespace with that content, the range `OccursRange` of the attributes, and nillable exactly when @nillable is "true" |
| `XmlSchema.ElementContentOf` | Sources/SchemaParser/Schema.swift:154-163 | @type wins and is read as a qualified name in scope; else the first xs:complexType child is read by `ParseComplexType`, whose result becomes complex content and whose error is the element's; else a simpleType child fails with elementContentNotSupported; else the content is xs:anyType |
| `XmlSchema.ParseRestriction` | Sources/SchemaParser/Schema.swift:188-200 | restrictionWithoutBase without @base; otherwise it succeeds exactly when @base reads as a qualified name in scope and `EnumerationValues` succeeds, failing with the base's error first and then the enumerations'; on success the base, those values and the @value of the first pattern child |
| `XmlSchema.EnumerationValues` | Sources/SchemaParser/Schema.swift:193-198 | succeeds exactly when every enumeration has @value, giving those values in document order; otherwise enumerationWithoutValue |
| `XmlSchema.ParseSimpleType` | Sources/SchemaParser/Schema.swift:216-232 | the name is `name(ofElement:)`; a restriction child wins and the result is `ParseRestriction` of it, success or error; else a list with @itemType is that qualified name or its error, and a list without one wraps `ParseSimpleType` of its nested simpleType, success or error; anything else is simpleTypeContentNotSupported |
| `XmlSchema.ParseComplexType` | Sources/SchemaParser/Schema.swift:288-306 | simpleContent fails first; a complexContent child gives `ParseComplexContent` of it, success or error; then group, all or choice fail with complexTypeContentNotSupported; then a sequence gives the elements `ParseSequence` reads, or its error; with none of them the content is empty; the name is `name(ofElement:)` |
| `XmlSchema.ParseComplexContent` | Sources/SchemaParser/Schema.swift:268-279 | a restriction child gives a restriction, else an extension child an extension, each with @base read in scope (its error first) and the elements `DerivationSequence` reads (its error next); with neither, invalidComplexContentContent |
| `XmlSchema.DerivationHasBase` | Sources/SchemaParser/Schema.swift:270-273 | in a well-formed complexContent the restriction or extension has the @base the reader force-unwraps |
| `XmlSchema.DerivationSequence` | Sources/SchemaParser/Schema.swift:252-258 | a derivation without a sequence fails with complexContentContentNotSupported; with one, the result is `ParseSequence` of the first sequence child |
| `XmlSchema.ParseSequence` | Sources/SchemaParser/Schema.swift:241-243 | the result is `ParseElements` of exactly the xs:element children of the sequence, in document order |
| `XmlSchema.ParseElements` | Sources/SchemaParser/Schema.swift:242 | on success there is one element per child |
| `XmlSchema.ParseElementsPointwise` | Sources/SchemaParser/Schema.swift:242 | mapping the element reader succeeds exactly when every child reads, and then the k-th element is the k-th child's |
| `XmlSchema.ParseElementsFirstFailure` | Sources/SchemaParser/Schema.swift:242 | a failure is the error of some child that fails while every child before it reads |
| `XmlSchema.TopLevelNode` | Sources/SchemaParser/Schema.swift:49-70 | text is passed over; an element outside the XML Schema namespace fails with incorrectNamespace; annotation, attribute, attributeGroup, group, include, notation and redefine give nothing; other unknown names fail with incorrectTopLevelElement(name); import, simpleType, complexType and element give the node their reader (`ParseImport`, `ParseSimpleType`, `ParseComplexType`, `ParseElement`) reads, or that reader's error |
| `XmlSchema.SchemaOf` | Sources/SchemaParser/Schema.swift:42-73 | a root other than xs:schema fails with incorrectRootElement; for an xs:schema root it succeeds exactly when the walk `TopLevelNodes` over the children does, failing with its error, and the schema is the root's targetNamespace with the nodes of that walk |
| `XmlSchema.SchemaChildrenWellFormed` | Sources/SchemaParser/Schema.swift:49 | the reader's forced unwraps hold in every child of a well-formed root |
| `XmlSchema.ParseSchema` | Sources/SchemaParser/Schema.swift:42-73 | the loop over the children gives exactly the schema `SchemaOf` describes, stopping at the first child that fails |
| `XmlSchema.WalkStep` | Sources/SchemaParser/Schema.swift:49-71 | one more child extends the walk by that child's node, or fails with its error |
| `XmlSchema.PrefixFailure` | Sources/SchemaParser/Schema.swift:61-69 | once some prefix of the children fails, the whole walk fails with that error |
| `XmlSchema.KeptNodesAreKnown` | Sources/SchemaParser/Schema.swift:53-70 | a successful walk has no more nodes than children, and every element child is in the XML Schema namespace and either skipped or kept |
| `XmlSchema.SkippedChildDropsOut` | Sources/SchemaParser/Schema.swift:57-59 | a skipped component or a text node can be removed anywhere without changing the result |
| `XmlSchema.NodesFollowDocumentOrder` | Sources/SchemaParser/Schema.swift:48-72 | the nodes of concatenated children are the concatenated nodes, so document order is kept |
| `WebServiceDescription.Tns` | Sources/SchemaParser/WebServiceDescription.swift:329-334 | the own or inherited targetNamespace of a node, or nodeWithoutTargetNamespace |
| `WebServiceDescription.NameOf` | Sources/SchemaParser/WebServiceDescription.swift:13 | @name in the node's targetNamespace, or nodeWithoutTargetNamespace |
| `WebServiceDescription.TypeAttribute` | Sources/SchemaParser/WebServiceDescription.swift:173 | the attribute's text read as a qualified name in the node's scope; an unresolvable prefix is invalidNamespacePrefix |
| `WebServiceDescription.OptionalTypeAttribute` | Sources/SchemaParser/WebServiceDescription.swift:14-15 | no name when the attribute is absent; otherwise the attribute read as a qualified name |
| `WebServiceDescription.Documentation` | Sources/SchemaParser/WebServiceDescription.swift:37 | a documentation text exactly when the node has a wsdl:documentation child |
| `WebServiceDescription.ParsePart` | Sources/SchemaParser/WebServiceDescription.swift:12-16 | a part has its name, and an element and a type exactly when @element and @type are present, each read in the part's scope; it fails exactly when one of those fails |
| `WebServiceDescription.ParseMessage` | Sources/SchemaParser/WebServiceDescription.swift:22-25 | nodeWithoutTargetNamespace without a targetNamespace; otherwise it succeeds exactly when every wsdl:part child reads, failing with the first part's error, and the message is the name with one part per child, in order |
| `WebServiceDescription.ParsePortOperation` | Sources/SchemaParser/WebServiceDescription.swift:35-40 | nodeWithoutTargetNamespace without a targetNamespace; otherwise it succeeds exactly when the @message of the first input and of the first output both read as qualified names in scope, failing with the input's error first; the operation is the name, the first documentation and those two names |
| `WebServiceDescription.ParsePortType` | Sources/SchemaParser/WebServiceDescription.swift:46-49 | nodeWithoutTargetNamespace without a targetNamespace; otherwise it succeeds exactly when every wsdl:operation child reads, failing with the first one's error, and holds the name and one operation per child, in order |
| `WebServiceDescription.StyleOf` | Sources/SchemaParser/WebServiceDescription.swift:83-86 | the raw values "document" and "rpc" and nothing else name a style |
| `WebServiceDescription.UseOf` | Sources/SchemaParser/WebServiceDescription.swift:88-91 | the raw values "literal" and "encoded" and nothing else name a use |
| `WebServiceDescription.MessageUse` | Sources/SchemaParser/WebServiceDescription.swift:121-135 | the use of the soap body, else of the soap12 body; none without a body or with an unknown use |
| `WebServiceDescription.ParseBindingOperation` | Sources/SchemaParser/WebServiceDescription.swift:103-152 | unsupportedOperation without a soap or soap12 operation, invalidOperationStyleForBindingOperation without a valid style, bindingOperationMissingInput without input, unsupportedBindingOperationEncoding without an input body use, then bindingOperationMissingOutput without output and unsupportedBindingOperationEncoding without an output body use, in that order; on success the action, style and both uses |
| `WebServiceDescription.BindingOperationEntry` | Sources/SchemaParser/WebServiceDescription.swift:174-180 | an operation that is neither soap nor soap12 is dropped, a parsed one kept, and every other error stands |
| `WebServiceDescription.OperationEntries` | Sources/SchemaParser/WebServiceDescription.swift:174-180 | succeeds exactly when no operation fails other than by being unsupported, and otherwise fails with the first such error; every supported operation is kept and nothing else appears |
| `WebServiceDescription.ParseBinding` | Sources/SchemaParser/WebServiceDescription.swift:159-181 | noTransport exactly when neither soap nor soap12 binding gives a transport; unsupportedTransport for one other than SOAP over HTTP; for SOAP over HTTP the name's error, then the @type's, then the result of `BindingOperations`, so that a binding whose name, type and operations read succeeds with the name, the port type and the supported operations |
| `WebServiceDescription.BindingEntry` | Sources/SchemaParser/WebServiceDescription.swift:316-324 | a binding without transport is dropped; any other binding error is wrapped in bindingParseError; other errors stand |
| `WebServiceDescription.ParsePort` | Sources/SchemaParser/WebServiceDescription.swift:195-205 | the name, the binding, and a soap address (SOAP 1.1) before a soap12 one (SOAP 1.2); with neither, unsupportedPortAddress(name) |
| `WebServiceDescription.PortEntry` | Sources/SchemaParser/WebServiceDescription.swift:215-221 | a port with an unsupported address is dropped; a parsed one is kept; other errors stand |
| `WebServiceDescription.ParseService` | Sources/SchemaParser/WebServiceDescription.swift:212-222 | nodeWithoutTargetNamespace without a targetNamespace; otherwise it succeeds exactly when the compactMap of `PortEntry` over the ports does, failing with its error, and holds the name, the first documentation and the supported ports, in order |
| `WebServiceDescription.NonImports` | Sources/SchemaParser/WebServiceDescription.swift:282-283 | exactly the nodes of a schema that are not imports |
| `WebServiceDescription.AppendEffect` | Sources/SchemaParser/WebServiceDescription.swift:270-286 | appending a schema collects its non-import nodes in order, makes its import namespaces required, marks its locations seen and queues each new one once behind those already queued |
| `WebServiceDescription.VisitEffect` | Sources/SchemaParser/WebServiceDescription.swift:272-284 | one node: an import records its namespace and queues its URL only when newly seen; any other node is collected |
| `WebServiceDescription.Pop` | Sources/SchemaParser/WebServiceDescription.swift:299 | the URL taken off the queue was not fetched before and is fetched now; the queue still has no duplicates |
| `WebServiceDescription.Drain` | Sources/SchemaParser/WebServiceDescription.swift:299-306 | on success nothing is left queued; a URL that cannot be downloaded fails; a downloaded schema without targetNamespace fails with schemaWithoutTargetNamespace |
| `WebServiceDescription.TurnKeeps` | Sources/SchemaParser/WebServiceDescription.swift:299-306 | one turn of the download loop fetches one new URL, keeps the queue without duplicates, loses nothing collected and leaves the loop's outcome unchanged |
| `WebServiceDescription.DrainCloses` | Sources/SchemaParser/WebServiceDescription.swift:276-281 | when the download loop ends, the URLs seen are exactly those fetched, each fetched once, and every import of every fetched schema has been seen |
| `WebServiceDescription.Inline` | Sources/SchemaParser/WebServiceDescription.swift:289-296 | every inline schema was read, had a targetNamespace that was recorded, and had its import locations seen |
| `WebServiceDescription.Collected` | Sources/SchemaParser/WebServiceDescription.swift:288-306 | after both loops nothing is queued, the imports are closed, and every inline schema was read |
| `WebServiceDescription.SchemaNodes` | Sources/SchemaParser/WebServiceDescription.swift:263-313 | no nodes without wsdl:types; otherwise the collected nodes when every required namespace was imported, else missingImportedNamespaces with exactly the required minus the imported |
| `WebServiceDescription.DefinitionImportOf` | Sources/SchemaParser/WebServiceDescription.swift:253-261 | succeeds exactly when both @namespace and @location are present and resolve; otherwise unsupportedImport |
| `WebServiceDescription.DescriptionOf` | Sources/SchemaParser/WebServiceDescription.swift:248-326 | a root other than wsdl:definitions fails with incorrectRootElement; otherwise it succeeds exactly when the imports, the schema nodes, the messages, the port types, the bindings and the services all read, and fails with the error of the first of them, in that order, that fails (so one unsupported import fails the description); on success the imports are `Imports`, the schema holds the collected nodes without imports and no targetNamespace, and the other parts are those children read in order |
| `WebServiceDescription.Imports` | Sources/SchemaParser/WebServiceDescription.swift:253-261 | succeeds exactly when every wsdl:import reads, one import per element in order; any failure is unsupportedImport |
| `WebServiceDescription.Messages` | Sources/SchemaParser/WebServiceDescription.swift:314 | succeeds exactly when every message reads, one result per message in order |
| `WebServiceDescription.PortTypes` | Sources/SchemaParser/WebServiceDescription.swift:315 | succeeds exactly when every port type reads, one result per port type in order |
| `WebServiceDescription.Services` | Sources/SchemaParser/WebServiceDescription.swift:325 | succeeds exactly when every service reads, one result per service in order |
| `WebServiceDescription.Bindings` | Sources/SchemaParser/WebServiceDescription.swift:316-324 | succeeds exactly when no binding fails other than by lacking a transport; every parsed binding is kept and nothing else appears |
| `WebServiceDescription.AppendSchema` | Sources/SchemaParser/WebServiceDescription.swift:270-286 | the loop of `append(xsd:relativeTo:)` computes the worklist `Append` describes |
| `WebServiceDescription.InlinePrefixFailure` | Sources/SchemaParser/WebServiceDescription.swift:290-292 | once an inline schema fails, the whole walk fails with its error |
| `WebServiceDescription.InlineSchemas` | Sources/SchemaParser/WebServiceDescription.swift:289-296 | the loop over the inline schemas computes `Inline` |
| `WebServiceDescription.Download` | Sources/SchemaParser/WebServiceDescription.swift:299-306 | the `popFirst` loop computes `Drain`, and ends because each turn fetches a URL not fetched before |
| `WebServiceDescription.CollectSchemas` | Sources/SchemaParser/WebServiceDescription.swift:288-306 | the two loops one after the other compute `Collected` |
| `WebServiceDescription.ParseDescription` | Sources/SchemaParser/WebServiceDescription.swift:248-326 | the initialiser computes exactly `DescriptionOf` |
| `LegacyWsdl.PrefixedAttribute` | Sources/SchemaParser/WSDL.swift:10 | an attribute read as a prefixed qualified name; a value without a colon fails with invalidNamespacePrefix |
| `LegacyWsdl.ParsePart` | Sources/SchemaParser/WSDL.swift:8-11 | a part reads exactly when its name and its prefixed @element read, and holds both |
| `LegacyWsdl.ParseMessage` | Sources/SchemaParser/WSDL.swift:17-20 | the name and one part per wsdl:part child; with a name it reads exactly when every part does |
| `LegacyWsdl.ParsePortOperation` | Sources/SchemaParser/WSDL.swift:30-35 | the name's error first; then it succeeds exactly when the prefixed @message of the input and of the output both read, failing with the input's error first (an unprefixed input message fails); the operation holds the name, the first documentation and the two names |
| `LegacyWsdl.ParsePortType` | Sources/SchemaParser/WSDL.swift:41-44 | the name's error first; then it succeeds exactly when every wsdl:operation child reads, failing with the first one's error, and holds the name and one operation per child, in order |
| `LegacyWsdl.ParseBindingOperation` | Sources/SchemaParser/WSDL.swift:69-102 | unsupportedOperation without a soap or soap12 operation; otherwise bindingOperationIncomplete exactly when the input or output or its soap body is missing; on success the action, style and both uses |
| `LegacyWsdl.ParseBinding` | Sources/SchemaParser/WSDL.swift:109-113 | the name and the prefixed port type are read; once both are, the binding reads exactly when all of its operations do, and it holds those operations |
| `LegacyWsdl.ParseOperations` | Sources/SchemaParser/WSDL.swift:112 | one parsed operation per wsdl:operation, in order, and only when every one is a soap or soap12 operation; otherwise the first operation's error |
| `LegacyWsdl.ParsePort` | Sources/SchemaParser/WSDL.swift:127-137 | a soap address, else a soap12 one; with neither, unsupportedPortAddress |
| `LegacyWsdl.ParseService` | Sources/SchemaParser/WSDL.swift:144-148 | the name's error first; then it succeeds exactly when every port reads, none skipped, failing with the first port's error, and holds the name, the first documentation and one port per child |
| `LegacyWsdl.NonImports` | Sources/SchemaParser/WSDL.swift:181-183 | exactly the schema nodes that are not imports |
| `LegacyWsdl.AppendEffect` | Sources/SchemaParser/WSDL.swift:173-184 | appending a schema collects its non-import nodes in order, marks its locations seen and queues new ones behind the queue, keeping it free of duplicates |
| `LegacyWsdl.VisitEffect` | Sources/SchemaParser/WSDL.swift:174-183 | one node: an import queues its URL only when newly seen; any other node is collected |
| `LegacyWsdl.Pop` | Sources/SchemaParser/WSDL.swift:185 | the URL taken off the queue was not fetched before and is fetched now |
| `LegacyWsdl.Drain` | Sources/SchemaParser/WSDL.swift:185-199 | on success nothing is queued; a URL that cannot be downloaded fails the document |
| `LegacyWsdl.TurnKeeps` | Sources/SchemaParser/WSDL.swift:185-199 | one turn fetches a new URL, keeps the queue without duplicates and the closure, loses nothing collected and leaves the outcome unchanged |
| `LegacyWsdl.DrainCloses` | Sources/SchemaParser/WSDL.swift:185-199 | when the loop ends, the URLs seen are exactly those fetched and every import of every fetched schema has been seen |
| `LegacyWsdl.Collected` | Sources/SchemaParser/WSDL.swift:171-199 | the inline schema's non-import nodes come first, followed only by non-import nodes of imported schemas |
| `LegacyWsdl.SchemaNodes` | Sources/SchemaParser/WSDL.swift:169-201 | no nodes without a first wsdl:types holding an xs:schema; otherwise that schema read and collected |
| `LegacyWsdl.Messages` | Sources/SchemaParser/WSDL.swift:202 | succeeds exactly when every message reads, with one result per message in order |
| `LegacyWsdl.PortTypes` | Sources/SchemaParser/WSDL.swift:203 | succeeds exactly when every port type reads, with one result per port type in order |
| `LegacyWsdl.Services` | Sources/SchemaParser/WSDL.swift:205 | succeeds exactly when every service reads, with one result per service in order |
| `LegacyWsdl.Bindings` | Sources/SchemaParser/WSDL.swift:204 | succeeds exactly when every binding reads, with one result per binding in order |
| `LegacyWsdl.WsdlOf` | Sources/SchemaParser/WSDL.swift:164-206 | a root other than wsdl:definitions fails with incorrectRootElement; otherwise it succeeds exactly when the schema nodes, messages, port types, bindings and services all read, fails with the error of the first of them that fails, and on success holds each as read |
| `LegacyWsdl.UnsupportedOperationFails` | Sources/SchemaParser/WSDL.swift:77-79 | one binding operation that is neither soap nor soap12 fails the whole document |
| `LegacyWsdl.AppendSchema` | Sources/SchemaParser/WSDL.swift:173-184 | the `for node in` loop computes `Append` |
| `LegacyWsdl.Download` | Sources/SchemaParser/WSDL.swift:185-199 | the `popFirst` loop computes `Drain` |
| `LegacyWsdl.ParseWsdl` | Sources/SchemaParser/WSDL.swift:164-206 | the initialiser computes exactly `WsdlOf` |
| `LegacyWsdl.ReadSchemaNodes` | Sources/SchemaParser/WSDL.swift:169-201 | the schema part of the initialiser computes exactly `SchemaNodes`: the inline schema read, appended and its imports downloaded |
| `LegacyXsd.Name` | Sources/SchemaParser/XSD.swift:21-26 | the name of either kind of element |
| `LegacyXsd.EqualsIsEquivalence` | Sources/SchemaParser/XSD.swift:9-15 | `==` is reflexive, symmetric and transitive, and equal elements are of the same kind and share a name |
| `LegacyXsd.EqualsIgnoresOccursAndMembers` | Sources/SchemaParser/XSD.swift:11-13 | `==` ignores the occurrence range and the members, and never equates a base-typed element with a complex one |
| `LegacyXsd.EqualsConsistentWithHash` | Sources/SchemaParser/XSD.swift:17-19 | elements that are `==` have the same hash |
| `LegacyXsd.Occurs` | Sources/SchemaParser/XSD.swift:31-40 | each of the six cases of the occurrence attributes: a missing bound is 1, "unbounded" is `Int.max`, so no attributes give 1..<1 |
| `LegacyXsd.OccursAgreesWithElementRange` | Sources/SchemaParser/XSD.swift:31-40 | this reader and the later one agree on every range except the one without attributes, which only this reader gives |
| `LegacyXsd.WellFormedChildren` | Sources/SchemaParser/XSD.swift:68-69 | the children the reader recurses into are well formed and smaller |
| `LegacyXsd.Tns` | Sources/SchemaParser/XSD.swift:46 | the inherited targetNamespace, or nodeWithoutTargetNamespace |
| `LegacyXsd.ParseElement` | Sources/SchemaParser/XSD.swift:42-44 | noName for a node without @name |
| `LegacyXsd.ParseElementResult` | Sources/SchemaParser/XSD.swift:42-64 | nodeWithoutTargetNamespace for a named node without a targetNamespace; an xs:element with @type gives `.type(name, base, occurs)` or the base's error; an xs:element with a complexType child, and an xs:complexType, give `ParseComplexType` of that node; unsupportedType for anything else; conversely a base-typed result comes only from an xs:element with @type and a complex one only from the other two forms |
| `LegacyXsd.ParseComplexType` | Sources/SchemaParser/XSD.swift:66-73 | unsupportedType without an xs:sequence; otherwise it succeeds exactly when `ParseMembers` of the xs:element children of the first sequence does, failing with its error, and is the complex element with those members |
| `LegacyXsd.ParseMembers` | Sources/SchemaParser/XSD.swift:68-69 | succeeds exactly when every member does, keeping them in order; a failure is the failure of some member |
| `XsdEquality.ElementEqualsIsEquality` | Sources/SchemaParser/XSD+Extensions.swift:3-7 | the hand-written `==` of elements holds exactly when the trees are identical |
| `XsdEquality.ContentEqualsIsEquality` | Sources/SchemaParser/XSD+Extensions.swift:15-23 | the `==` of element contents holds exactly when they are identical |
| `XsdEquality.ComplexEqualsIsEquality` | Sources/SchemaParser/XSD+Extensions.swift:25-29 | the `==` of complex types holds exactly when they are identical |
| `XsdEquality.ComplexContentEqualsIsEquality` | Sources/SchemaParser/XSD+Extensions.swift:31-45 | the `==` of complex contents, sequences included, holds exactly when they are identical |
| `XsdEquality.EqualElementsHashAlike` | Sources/SchemaParser/XSD+Extensions.swift:9-13 | elements that are `==`, or that merely share a name, have the same hash |
| `Edges.EndpointsMeaning` | Sources/CodeGenerator/WebServiceDescription+verify.swift:94-101 | a node is an endpoint exactly when some edge starts or ends at it |
| `Edges.CollectMissing` | Sources/CodeGenerator/WebServiceDescription+verify.swift:93-101 | the loop over the edges collects exactly the endpoints that are not among the nodes |
| `Edges.EmptyDifference` | Sources/CodeGenerator/WebServiceDescription+verify.swift:103-104 | nothing is left after subtracting a set exactly when that set covers everything |
| `Edges.EdgesTo` | Sources/CodeGenerator/Graph.swift:64-66 | exactly the sources of the edges that end at the node |
| `Edges.EdgesFrom` | Sources/CodeGenerator/Graph.swift:68-70 | exactly the targets of the edges that start at the node |
| `Edges.EdgesToIsEdgesFromReversed` | Sources/CodeGenerator/Graph.swift:64-70 | reversing every edge turns `edges(to:)` into `edges(from:)` |
| `Edges.FlatMap` | Sources/CodeGenerator/WebServiceDescription+verify.swift:39-45 | an edge is produced exactly when the builder gives it for some element of the list |
| `Edges.FlatMapConcat` | Sources/CodeGenerator/WebServiceDescription+verify.swift:84-91 | building over two lists one after the other gives both edge lists in that order |
| `DescriptionVerify.NodeEqualsIsEquality` | Sources/CodeGenerator/WebServiceDescription+verify.swift:148-159 | the hand-written `Node ==` holds exactly for identical nodes |
| `DescriptionVerify.SimpleTypeEdges` | Sources/CodeGenerator/WebServiceDescription+verify.swift:109-115 | one edge from the item, to the restricted base or the list item type; a wrapped list gives exactly the edges of the type it wraps |
| `DescriptionVerify.ElementEdges` | Sources/CodeGenerator/WebServiceDescription+verify.swift:138-145 | a base-typed element gives the one edge to its type; every edge leaves the item and ends at a type |
| `DescriptionVerify.ElementsEdges` | Sources/CodeGenerator/WebServiceDescription+verify.swift:119 | every base-typed member contributes the edge to its type; every edge leaves the item and ends at a type |
| `DescriptionVerify.ComplexTypeEdges` | Sources/CodeGenerator/WebServiceDescription+verify.swift:117-123 | empty content gives no edges; complex content starts with the edge to its base |
| `DescriptionVerify.ComplexContentEdges` | Sources/CodeGenerator/WebServiceDescription+verify.swift:125-136 | first the edge to the base, then the edges of the sequence, for a restriction and an extension alike |
| `DescriptionVerify.ElementsEdgesConcat` | Sources/CodeGenerator/WebServiceDescription+verify.swift:119 | the edges of a sequence are its members' edges one member after the other |
| `DescriptionVerify.ItemNode` | Sources/CodeGenerator/WebServiceDescription+verify.swift:75-82 | every schema item but an import declares a node |
| `DescriptionVerify.ItemEdges` | Sources/CodeGenerator/WebServiceDescription+verify.swift:84-91 | the edges of an item leave the node it declares and end at types |
| `DescriptionVerify.PortEdges` | Sources/CodeGenerator/WebServiceDescription+verify.swift:39-45 | one edge per port, from the service to the port's binding |
| `DescriptionVerify.OperationEdges` | Sources/CodeGenerator/WebServiceDescription+verify.swift:51-58 | two edges per operation, from the port type to the input and then the output message |
| `DescriptionVerify.MessageEdgesOf` | Sources/CodeGenerator/WebServiceDescription+verify.swift:53-56 | two edges per operation, in order, to the input and output messages |
| `DescriptionVerify.PartEdge` | Sources/CodeGenerator/WebServiceDescription+verify.swift:63-71 | a part gives an edge to its element if it names one, else to its type, else none |
| `DescriptionVerify.AllNodes` | Sources/CodeGenerator/WebServiceDescription+verify.swift:38-82 | a node is collected exactly when the description declares it |
| `DescriptionVerify.UnresolvedMeaning` | Sources/CodeGenerator/WebServiceDescription+verify.swift:93-103 | a node is reported exactly when it is an endpoint that is neither declared nor a built-in type |
| `DescriptionVerify.UnresolvedMeaningAll` | Sources/CodeGenerator/WebServiceDescription+verify.swift:93-103 | the same, for every node at once |
| `DescriptionVerify.NothingUnresolved` | Sources/CodeGenerator/WebServiceDescription+verify.swift:104 | nothing is reported exactly when every edge's endpoints are declared or built in |
| `DescriptionVerify.Verification` | Sources/CodeGenerator/WebServiceDescription+verify.swift:34-107 | passes exactly when every endpoint is declared or built in; otherwise missingNodes names exactly the unresolved endpoints, of which there is at least one |
| `DescriptionVerify.Verify` | Sources/CodeGenerator/WebServiceDescription+verify.swift:34-107 | the method computes `Verification` |
| `DescriptionVerify.UndeclaredBindingIsReported` | Sources/CodeGenerator/WebServiceDescription+verify.swift:39-45 | a port whose binding is not declared makes the check fail and is named in the error |
| `DescriptionVerify.LoneServiceEdges` | Tests/CodeGeneratorTests/WebServiceDescription+verifyTests.swift:23-33 | a description with one service and one port has exactly the one service-to-binding edge |
| `DescriptionVerify.LoneServiceUnresolved` | Tests/CodeGeneratorTests/WebServiceDescription+verifyTests.swift:23-33 | its only unresolved node is the binding |
| `DescriptionVerify.MissingBindingReportsIt` | Tests/CodeGeneratorTests/WebServiceDescription+verifyTests.swift:23-33 | the check fails with missingNodes naming exactly the ImportSoapBinding binding |
| `WsdlVerify.MissingMeaning` | Sources/CodeGenerator/WSDL+verify.swift:66-74 | a node is missing exactly when it is an undeclared endpoint |
| `WsdlVerify.VerificationAsWritten` | Sources/CodeGenerator/WSDL+verify.swift:24-79 | passes exactly when every missing endpoint is a built-in type, and the error carries every missing endpoint, built-in types included |
| `WsdlVerify.Verification` | Sources/CodeGenerator/WSDL+verify.swift:75-78 | the same decision, with the error naming exactly the missing endpoints that are not built-in types |
| `WsdlVerify.SameDecision` | Sources/CodeGenerator/WSDL+verify.swift:75-78 | the two agree on whether the check passes, and the corrected error is part of the written one |
| `WsdlVerify.Verify` | Sources/CodeGenerator/WSDL+verify.swift:24-79 | the method computes `VerificationAsWritten` |
| `WsdlVerify.TwoElementsEdges` | Sources/CodeGenerator/WSDL+verify.swift:57-64 | a schema of two base-typed elements has exactly their two edges |
| `WsdlVerify.TwoElementsMissing` | Sources/CodeGenerator/WSDL+verify.swift:66-74 | both element types are missing, the built-in xs:string included |
| `WsdlVerify.BuiltInTypeReported` | Sources/CodeGenerator/WSDL+verify.swift:76-77 | as written the error names the built-in xs:string; corrected it names only the undeclared type |
| `LegacyGraph.NodeEqualsIsEquality` | Sources/CodeGenerator/WSDL+verify.swift:106-115 | the hand-written `Node ==` holds exactly for identical nodes |
| `LegacyGraph.SimpleTypeEdges` | Sources/CodeGenerator/WSDL+verify.swift:81-87 | one edge, to the restricted base or the list item type; a wrapped list gives exactly the edges of the type it wraps |
| `LegacyGraph.ElementEdges` | Sources/CodeGenerator/WSDL+verify.swift:96-103 | a base-typed element gives the one edge to its type; every edge leaves the item and ends at a type |
| `LegacyGraph.ComplexEdges` | Sources/CodeGenerator/WSDL+verify.swift:89-94 | empty content gives no edges; every edge leaves the item and ends at a type |
| `LegacyGraph.ElementsEdges` | Sources/CodeGenerator/WSDL+verify.swift:91 | every base-typed member contributes the edge to its type |
| `LegacyGraph.ElementsEdgesConcat` | Sources/CodeGenerator/WSDL+verify.swift:91 | the edges of a sequence are its members' edges one member after the other |
| `LegacyGraph.ItemNode` | Sources/CodeGenerator/WSDL+verify.swift:47-54 | an element declares an element node, a simple or complex type a type node |
| `LegacyGraph.ItemEdges` | Sources/CodeGenerator/WSDL+verify.swift:57-64 | the edges of an item leave the node it declares and end at types |
| `LegacyGraph.OperationEdges` | Sources/CodeGenerator/WSDL+verify.swift:32-36 | two edges per operation, both from the operation, to its input and then its output message |
| `LegacyGraph.PartEdges` | Sources/CodeGenerator/WSDL+verify.swift:39-45 | one edge per part, from the message to the part's element |
| `LegacyGraph.AllNodes` | Sources/CodeGenerator/WSDL+verify.swift:25-54 | a node is collected exactly when the definitions declare it |
| `LegacyGraph.OperationReferencesAreEdges` | Sources/CodeGenerator/WSDL+verify.swift:32-36 | every operation's input and output reference is an edge of the graph |
| `LegacyGraph.PartReferencesAreEdges` | Sources/CodeGenerator/WSDL+verify.swift:39-45 | every message part's element reference is an edge of the graph |
| `Graphs.GraphOf` | Sources/CodeGenerator/Graph.swift:15-59 | the nodes are the built-in types and the declared operations, messages and items; the edges those of the definitions |
| `Graphs.SeededWithBaseTypes` | Sources/CodeGenerator/Graph.swift:16 | every built-in XML Schema type is a node of the graph |
| `Graphs.Check` | Sources/CodeGenerator/Graph.swift:97-110 | passes exactly when every edge endpoint is a node; otherwise missingNodes names exactly the endpoints that are not |
| `Graphs.MissingMeaning` | Sources/CodeGenerator/Graph.swift:98-106 | a node is missing exactly when it is an endpoint but no node |
| `Graphs.ClosedMeaning` | Sources/CodeGenerator/Graph.swift:107 | all endpoints are nodes exactly when every edge starts and ends at a node |
| `Graphs.Build` | Sources/CodeGenerator/Graph.swift:15-62 | construction yields the collected graph, closed, exactly when its check passes, and otherwise the check's error |
| `Graphs.BuildAgreesWithVerification` | Sources/CodeGenerator/Graph.swift:15-62 | building the graph and the corrected `WSDL.verify()` agree on passing and on the nodes they name |
| `Graphs.Verify` | Sources/CodeGenerator/Graph.swift:97-110 | the method computes `Check` |
| `Graphs.Init` | Sources/CodeGenerator/Graph.swift:15-62 | the initialiser computes `Build` |
| `Graphs.EdgesToNode` | Sources/CodeGenerator/Graph.swift:64-66 | exactly the sources of the graph's edges that end at the node |
| `Graphs.EdgesFromNode` | Sources/CodeGenerator/Graph.swift:68-70 | exactly the targets of the graph's edges that start at the node |
| `Graphs.NeighboursAreNodes` | Sources/CodeGenerator/Graph.swift:58-70 | in a graph that was built, every neighbour is a node |
| `Generator.Seed` | Sources/CodeGenerator/Generator.swift:16 | the mapping starts with exactly the built-in types, each under its Swift name |
| `Generator.SuffixedInjective` | Sources/CodeGenerator/Generator.swift:44 | different suffixes give different names |
| `Generator.FreeSuffix` | Sources/CodeGenerator/Generator.swift:44 | the least suffix from 2 on whose name is not in scope |
| `Generator.TypeName` | Sources/CodeGenerator/Generator.swift:37-45 | the chosen class name is never in scope: the plain name when free, else the `Type` name when free |
| `Generator.TypeNameTakesLeastSuffix` | Sources/CodeGenerator/Generator.swift:43-45 | when both are taken, the name carries the least free suffix from 2 on |
| `Generator.FirstFreeSuffix` | Sources/CodeGenerator/Generator.swift:44 | the lazy search computes `FreeSuffix`, and ends because the scope is finite |
| `Generator.ChooseTypeName` | Sources/CodeGenerator/Generator.swift:37-45 | the `if … else if … else` computes `TypeName` |
| `Generator.ElementsOf` | Sources/CodeGenerator/Generator.swift:25 | exactly the element nodes, without duplicates when the nodes have none |
| `Generator.TypesOf` | Sources/CodeGenerator/Generator.swift:36 | exactly the type nodes, without duplicates when the nodes have none |
| `Generator.AssignedMeaning` | Sources/CodeGenerator/Generator.swift:32 | assigning names to distinct nodes gives each its own name and leaves every other entry alone |
| `Generator.ElementNames` | Sources/CodeGenerator/Generator.swift:26 | each element's name is the Swift type name of its local name |
| `Generator.TypeNamesFresh` | Sources/CodeGenerator/Generator.swift:36-49 | every name the type loop picks is new to the scope it started with, and no two are alike |
| `Generator.NameElements` | Sources/CodeGenerator/Generator.swift:25-34 | the element loop maps each element to its plain name and puts exactly those names in scope |
| `Generator.NameTypes` | Sources/CodeGenerator/Generator.swift:36-49 | the type loop maps each type to the name `TypeName` picks against the scope so far and adds those names to it |
| `Generator.ElementNamesOf` | Sources/CodeGenerator/Generator.swift:25-34 | one name per connected element |
| `Generator.TypeNamesOf` | Sources/CodeGenerator/Generator.swift:36-49 | one name per connected type |
| `Generator.NamingEntries` | Sources/CodeGenerator/Generator.swift:25-49 | after both loops every connected element and type has the name its loop gave it and every other seed entry is unchanged |
| `Generator.ElementsKeepPlainNames` | Sources/CodeGenerator/Generator.swift:19-21 | connected elements keep their plain Swift names |
| `Generator.NamesDistinct` | Sources/CodeGenerator/Generator.swift:25-49 | no two connected elements or types get the same Swift name |
| `Generator.AssignNames` | Sources/CodeGenerator/Generator.swift:25-49 | both naming loops compute `Naming` and leave exactly the chosen names in scope |
| `Generator.ElementWinsClash` | Sources/CodeGenerator/Generator.swift:19-21 | when an element and a type would share a name, the element keeps it and the type takes the `Type` suffix, whichever comes first |
| `Generator.ElementItems` | Sources/CodeGenerator/Generator.swift:52 | at most one element per schema item |
| `Generator.ComplexItems` | Sources/CodeGenerator/Generator.swift:56 | at most one complex type per schema item |
| `Generator.SimpleItems` | Sources/CodeGenerator/Generator.swift:60 | at most one simple type per schema item |
| `Generator.EveryItemEmittedOnce` | Sources/CodeGenerator/Generator.swift:51-62 | every schema item except an import is emitted exactly once |
| `Generator.EmittedTypes` | Sources/CodeGenerator/Generator.swift:51-62 | one emitted type per schema item that is not an import |
| `Generator.EmitTypes` | Sources/CodeGenerator/Generator.swift:51-62 | the three loops compute `EmittedTypes`: elements first, then complex types, then simple types |
| `Generator.EmitElements` | Sources/CodeGenerator/Generator.swift:52-54 | one converted type per element of the schema, in schema order |
| `Generator.EmitComplexTypes` | Sources/CodeGenerator/Generator.swift:56-58 | one converted type per complex type of the schema, in schema order |
| `Generator.EmitSimpleTypes` | Sources/CodeGenerator/Generator.swift:60-62 | one converted type per simple type of the schema, in schema order |
| `Generator.EmitClients` | Sources/CodeGenerator/Generator.swift:64-67 | one client per service, in order |
| `Generator.Generation` | Sources/CodeGenerator/Generator.swift:12-70 | fails exactly when building the graph fails, with its error; otherwise one type per non-import item and one client per service |
| `Generator.Generate` | Sources/CodeGenerator/Generator.swift:12-70 | the function body computes `Generation` |
| `SwiftModels.TypeOf` | Sources/CodeGenerator/Models.swift:11-17 | optional exactly for `0..<1`, a plain identifier exactly for no range or `1..<1`, otherwise an array, always around the given type |
| `SwiftModels.TypeOfHoldsEveryOccurrence` | Sources/CodeGenerator/Models.swift:11-17 | read as inclusive bounds, every count the element may occur is one the chosen Swift type can hold |
| `SwiftModels.OnlyArraysHoldMany` | Sources/CodeGenerator/Models.swift:13-15 | only an array holds two values, and a plain identifier never holds none |
| `SwiftModels.NewTypeClass` | Sources/CodeGenerator/Models.swift:38-45 | the class stores exactly the name, base, protocols, properties and nested types given |
| `SwiftModels.DefaultTypeClassIsBare` | Sources/CodeGenerator/Models.swift:38 | the default arguments give a class with nothing but its name |
| `SwiftModels.NewServiceMethod` | Sources/CodeGenerator/Models.swift:76-81 | the method is named after the operation's local name; input, output and action are stored |
| `SwiftModels.MethodNameIgnoresNamespace` | Sources/CodeGenerator/Models.swift:77 | operations with the same local name give the same method name, whatever their namespace |
| `SchemaToSwift.MembersOfResolvable` | Sources/CodeGenerator/Schema+toSwift.swift:15-31 | the lookups of a resolvable complex type cover all its members |
| `SchemaToSwift.PropertyOf` | Sources/CodeGenerator/Schema+toSwift.swift:49-64 | a member's property is named after the member and typed by its mapped base type or its nested type's name |
| `SchemaToSwift.Properties` | Sources/CodeGenerator/Schema+toSwift.swift:48-65 | one property per member, in order |
| `SchemaToSwift.ComplexMembers` | Sources/CodeGenerator/Schema+toSwift.swift:55 | exactly the members with a complex type of their own |
| `SchemaToSwift.NestedOf` | Sources/CodeGenerator/Schema+toSwift.swift:55-59 | a base-typed member adds no nested type; a complex one adds one class named after the member |
| `SchemaToSwift.NestedTypes` | Sources/CodeGenerator/Schema+toSwift.swift:48-65 | one nested class per complex member |
| `SchemaToSwift.ComplexToSwift` | Sources/CodeGenerator/Schema+toSwift.swift:8-37 | a class under the given or mapped name; a base exactly for complex content, taken from the generated types; the sequence's properties and nested types for a sequence or complex content; nothing for empty content |
| `SchemaToSwift.OnePropertyPerMember` | Sources/CodeGenerator/Schema+toSwift.swift:48-65 | a class has exactly one property per member, in member order, named after the member |
| `SchemaToSwift.NestedTypesNamed` | Sources/CodeGenerator/Schema+toSwift.swift:58-59 | the k-th nested type is a class named after the k-th complex member |
| `SchemaToSwift.NestedTypesBackProperties` | Sources/CodeGenerator/Schema+toSwift.swift:58-63 | every nested type is the type some property refers to |
| `SchemaToSwift.EmptyContentIsBare` | Sources/CodeGenerator/Schema+toSwift.swift:32-33 | a type without content is a bare class |
| `SchemaToSwift.NestedTypesOfLongerPrefix` | Sources/CodeGenerator/Schema+toSwift.swift:48-65 | one more member adds exactly its property and its nested type |
| `SchemaToSwift.MemberToSwift` | Sources/CodeGenerator/Schema+toSwift.swift:49-64 | one round of the loop computes `PropertyOf` and `NestedOf` |
| `SchemaToSwift.SequenceToSwift` | Sources/CodeGenerator/Schema+toSwift.swift:39-67 | the loop computes `Properties` and `NestedTypes` |
| `SchemaToSwift.EnumCases` | Sources/CodeGenerator/Schema+toSwift.swift:86 | one case per spelled enumeration value, each holding a value that spells to its key |
| `SchemaToSwift.EnumCasesFromValues` | Sources/CodeGenerator/Schema+toSwift.swift:86 | the dictionary built from the values holds only values that spell to their key |
| `SchemaToSwift.EnumKeepsEveryValue` | Sources/CodeGenerator/Schema+toSwift.swift:86 | values with different spellings give one case each |
| `SchemaToSwift.SimpleToSwift` | Sources/CodeGenerator/Schema+toSwift.swift:70-91 | a list of the mapped item type; a wrapped list around one nested "Element"; a typealias to the base exactly when the restriction has no values, else a String enum of them |
| `SchemaToSwift.ElementToSwift` | Sources/CodeGenerator/Schema+toSwift.swift:93-104 | under the element's mapped name, a typealias to its base type's Swift name shaped by its range, or the class of its complex type |
| `SchemaToSwift.WiringOf` | Sources/CodeGenerator/Schema+toSwift.swift:110-113 | a SOAP 1.1 port of the service, the binding it names and the port type that binding implements |
| `SchemaToSwift.MessageTypeOf` | Sources/CodeGenerator/Schema+toSwift.swift:118-127 | the first part's element and its generated name, or without one its type and that type's name |
| `SchemaToSwift.MethodFor` | Sources/CodeGenerator/Schema+toSwift.swift:131-142 | named after the operation, with the input and output message types and the action of the matching binding operation |
| `SchemaToSwift.ServiceToSwift` | Sources/CodeGenerator/Schema+toSwift.swift:109-145 | the client "<Name>Client" on the wired port, with one method per port type operation, in order |
| `SchemaToSwift.ClientUsesFirstSoap11Port` | Sources/CodeGenerator/Schema+toSwift.swift:111 | the client uses the earliest SOAP 1.1 port |
| `SchemaToSwift.MethodActionByLocalName` | Sources/CodeGenerator/Schema+toSwift.swift:133 | the action comes from the earliest binding operation with the operation's local name |
| `XsdToSwift.PropertyOf` | Sources/CodeGenerator/XSD+toSwift.swift:48-59 | a member's property is named after the member and typed by its mapped base type, or by "UNNAMED" for a complex member |
| `XsdToSwift.Properties` | Sources/CodeGenerator/XSD+toSwift.swift:47-61 | one property per member, in order |
| `XsdToSwift.NestedOf` | Sources/CodeGenerator/XSD+toSwift.swift:54-55 | a base-typed member adds nothing; a complex one adds its complex type under that type's own mapped name |
| `XsdToSwift.NestedTypes` | Sources/CodeGenerator/XSD+toSwift.swift:47-61 | one nested class per complex member |
| `XsdToSwift.ComplexToSwift` | Sources/CodeGenerator/XSD+toSwift.swift:7-42 | a class under the given or mapped name; a base exactly for complex content; the sequence's properties and nested types for a sequence or complex content; nothing for empty content |
| `XsdToSwift.NestedTypesNamed` | Sources/CodeGenerator/XSD+toSwift.swift:55 | the k-th nested type is named after the k-th complex member's own type, which must be named |
| `XsdToSwift.ComplexMembersAreUnnamed` | Sources/CodeGenerator/XSD+toSwift.swift:56-59 | whatever its nested type is called, a complex member's property is typed "UNNAMED" |
| `XsdToSwift.NestedTypesOfLongerPrefix` | Sources/CodeGenerator/XSD+toSwift.swift:47-61 | one more member adds exactly its property and its nested type |
| `XsdToSwift.MemberToSwift` | Sources/CodeGenerator/XSD+toSwift.swift:48-60 | one round of the loop computes `PropertyOf` and `NestedOf` |
| `XsdToSwift.SequenceToSwift` | Sources/CodeGenerator/XSD+toSwift.swift:44-63 | the loop computes `Properties` and `NestedTypes` |
| `XsdToSwift.SimpleToSwift` | Sources/CodeGenerator/XSD+toSwift.swift:66-84 | notImplemented exactly for lists; a restriction is a String enum of its spelled values |
| `XsdToSwift.RestrictionWithoutValuesIsEmptyEnum` | Sources/CodeGenerator/XSD+toSwift.swift:79-81 | a restriction without values gives an enum without cases, not a typealias |
| `XsdToSwift.ElementToSwift` | Sources/CodeGenerator/XSD+toSwift.swift:86-94 | under the element's mapped name, a bare subclass of its base type's class, or the class of its complex type |
| `XsdToSwift.MessageTypeOf` | Sources/CodeGenerator/XSD+toSwift.swift:110-114 | the first part's element and the name of the type generated for it |
| `XsdToSwift.MethodFor` | Sources/CodeGenerator/XSD+toSwift.swift:117-128 | named after the operation, with the input and output message types and the action of the binding operation of the same name |
| `XsdToSwift.ServiceToSwift` | Sources/CodeGenerator/XSD+toSwift.swift:99-131 | the client "<Name>Client" on the first SOAP 1.1 port, with one method per port type operation, in order |
| `XsdToSwift.MethodActionByQualifiedName` | Sources/CodeGenerator/XSD+toSwift.swift:118 | the action comes from the earliest binding operation with the operation's whole qualified name |
| `TypesToSwift.ResolvableHasNoDerivation` | Sources/CodeGenerator/Types.swift:10-22 | a type this mapping can convert has only sequences and empty contents, nested ones included |
| `TypesToSwift.ComplexToSwift` | Sources/CodeGenerator/Types.swift:6-25 | the loop over the sequence builds exactly the class `XsdToSwift.ComplexToSwift` describes: one property per member, "UNNAMED" for complex ones, one nested class per complex member |
| `TypesToSwift.SequenceToSwift` | Sources/CodeGenerator/Types.swift:11-20 | the `for element in sequence.elements` loop computes the properties and nested classes of `XsdToSwift` for the whole sequence, in order |
| `TypesToSwift.MemberToSwift` | Sources/CodeGenerator/Types.swift:13-19 | one round of the loop computes the property and nested type of `XsdToSwift` |
| `TypesToSwift.SimpleToSwift` | Sources/CodeGenerator/Types.swift:28-44 | a wrapped list becomes "ArrayOf<name>" with an "items" array of <name>, and its one nested type is the wrapped type converted under <name>; a restriction a String enum, even without values |
| `TypesToSwift.ItemsAreTheNestedType` | Sources/CodeGenerator/Types.swift:33-38 | the "items" array is typed by the nested item type |
| `TypesToSwift.ElementToSwift` | Sources/CodeGenerator/Types.swift:46-54 | under the element's mapped name, a class naming its base type's mapped name as superclass, or the class of its complex type |
| `ClientCode.NewServiceMethod` | Sources/CodeGenerator/Client.swift:29-33 | named after the operation's local name, holding the input and output messages |
| `ClientCode.MethodFor` | Sources/CodeGenerator/Client.swift:14-18 | the method takes the messages the operation names, found among the WSDL's messages |
| `ClientCode.ServiceToSwift` | Sources/CodeGenerator/Client.swift:3-22 | "<Name>Client" with one method per operation of the port type behind the first SOAP 1.1 port, in order; Types.swift:59-75 builds the same under another type name |
| `ClientCode.ClientMethodsUsePortTypeMessages` | Sources/CodeGenerator/Client.swift:14-18 | each method is named after its operation and takes the messages the port type names for it |
| `ClientCode.Parameters` | Sources/CodeGenerator/Client.swift:77-82 | one parameter per input part, named after the part and typed after its element, then the output callback |
| `ClientCode.ParameterListEndsWithOutput` | Sources/CodeGenerator/Client.swift:73-75 | the rendered list ends with the output callback, after one ", " when the input has parts |
| `ClientCode.PartLines` | Sources/CodeGenerator/Client.swift:54-62 | four lines per part |
| `ClientCode.PartsLines` | Sources/CodeGenerator/Client.swift:50-52 | four lines per part over all parts |
| `ClientCode.PartsLinesInOrder` | Sources/CodeGenerator/Client.swift:50-52 | line 4k+j of the parts is line j of part k |
| `ClientCode.SendLines` | Sources/CodeGenerator/Client.swift:64-71 | four send lines |
| `ClientCode.BodyLayout` | Sources/CodeGenerator/Client.swift:44-48 | the body declares the parameters, then four lines per part in order, then the four send lines |
| `ClientCode.MethodLines` | Sources/CodeGenerator/Client.swift:37-42 | the declaration with the parameter list, the body one level deeper, and the closing brace |
| `LarkUtils.WithPrefix` | Sources/Lark/Utils.swift:13-16 | a non-empty prefix is required; the new element is named "prefix:localName" in the URI, with nothing declared and no children |
| `LarkUtils.NsPrefix` | Sources/Lark/Utils.swift:27 | "ns" followed by the decimal digits of the index |
| `LarkUtils.NsPrefixHasNoColon` | Sources/Lark/Utils.swift:27 | a generated prefix contains no ':' |
| `LarkUtils.NsPrefixInjective` | Sources/Lark/Utils.swift:26-27 | different indices generate different prefixes |
| `LarkUtils.MaxNsIndex` | Sources/Lark/Utils.swift:26-33 | bounds the index of every "ns<digits>" prefix declared in scope |
| `LarkUtils.MaxDeclared` | Sources/Lark/Utils.swift:26-33 | bounds the index of every "ns<digits>" prefix declared on one element |
| `LarkUtils.BoundBelowMax` | Sources/Lark/Utils.swift:26-34 | only indices up to that bound can be bound, so the search finds a free one and the `fatalError()` is unreachable |
| `LarkUtils.FreshBindingKeepsScope` | Sources/Lark/Utils.swift:29-30 | binding an unbound prefix makes it resolve to the URI and changes no other prefix's meaning |
| `LarkUtils.FirstFreeIndex` | Sources/Lark/Utils.swift:26-28 | the least index from 1 whose prefix is unbound in scope |
| `LarkUtils.AddNamespace` | Sources/Lark/Utils.swift:25-35 | returns and binds the least unbound "ns<i>"; it now resolves to the URI and every other prefix keeps its meaning (the corrected definition) |
| `LarkUtils.AsWrittenTestIgnoresIndex` | Sources/Lark/Utils.swift:28 | the test as written asks for the default namespace whatever the index |
| `LarkUtils.AddNamespaceAsWritten` | Sources/Lark/Utils.swift:25-35 | as written: without a default namespace in scope it always binds and returns "ns1" |
| `LarkUtils.AsWrittenShadowsParentPrefix` | Sources/Lark/Utils.swift:25-35 | under a parent binding ns1, the as-written rebinding makes ns1 resolve to the child's URI, while the intended prefix is never ns1 and leaves ns1 to the parent |
| `LarkUtils.AsWrittenShadowsTempuriExample` | Tests/LarkTests/UtilsTests.swift:23-28 | in the nested example, foo's ns1 is redeclared for ".../1" while ns2 was the free prefix |
| `LarkUtils.ResolveOrAddPrefix` | Sources/Lark/Utils.swift:44-49 | a prefix already bound to the URI is returned and nothing is declared; otherwise exactly one declaration is added, binding the least unbound "ns<i>" to the URI (the corrected `AddNamespace`) |
| `LarkUtils.ResolveOrAddPrefixAsWritten` | Sources/Lark/Utils.swift:44-49 | as written: a prefix already bound to the URI is returned unchanged; otherwise "ns1" is (re)bound to the URI and returned, whatever ns1 meant before |
| `LarkUtils.CreateChildElement` | Sources/Lark/Utils.swift:59-70 | a new last child in the URI, with no declarations or attributes, holding the text; named under the prefix already bound to the URI in scope (bare for the empty prefix), else under the least unbound "ns<i>", declared on the element (the corrected `AddNamespace`) |
| `LarkUtils.CreateChildElementAsWritten` | Sources/Lark/Utils.swift:59-70 | as written: the same child, but without a bound prefix it is named "ns1:localName" and ns1 is rebound to the URI on the element |
| `LarkUtils.NestedChildrenAsWritten` | Tests/LarkTests/UtilsTests.swift:23-28 | building root, foo and bar as the toolkit's test does declares ns1 for ".../0" on root and again for ".../1" on foo, and names both children "ns1:foo" and "ns1:bar", the output that test expects |
| `LarkUtils.FirstGeneratedPrefixIsNs1` | Tests/LarkTests/UtilsTests.swift:17-22 | with no namespaces in scope the first generated prefix is ns1 |
| `LarkUtils.NoDeclarationsNothingBound` | Sources/Lark/Utils.swift:28 | with no declarations in scope no prefix resolves |
| `LarkUtils.TargetNamespace` | Sources/Lark/Utils.swift:76-84 | the element's own targetNamespace attribute, else the nearest ancestor's; none exactly when no element on the chain has one |
| `LarkUtils.Attribute` | Sources/Lark/Utils.swift:98-105 | a given prefix must not be empty; the attribute is "prefix:localName", or the local name without a prefix, and its prefix and local name read back |
| `RuntimeUtils.WithPrefix` | Sources/LarkRuntime/Utils.swift:4-10 | "prefix:localName", or the bare local name for the empty prefix, in the URI |
| `RuntimeUtils.CreateElement` | Sources/LarkRuntime/Utils.swift:12-24 | `invalidNamespace(uri)` exactly when no prefix in scope is bound to the URI; otherwise an unattached element under that prefix holding the text, whose prefix denotes the URI |
| `RuntimeUtils.Attribute` | Sources/LarkRuntime/Utils.swift:28-34 | "prefix:localName", or the local name for the empty prefix, and the parts read back |
| `Serialization.ReadInteger` | Sources/Lark/Serialization.swift:33 | a value only for the decimal text of an integer that fits the width; every fitting value is read |
| `Serialization.IntegerRoundTrip` | Sources/Lark/Serialization.swift:31-125 | every value of a width reads back from the text it serializes to |
| `Serialization.IntegerOutOfRangeRefused` | Sources/Lark/Serialization.swift:33-35 | the text of a value outside the width is refused, not wrapped or clamped |
| `Serialization.Int8AcceptsItsRange` | Sources/Lark/Serialization.swift:31-37 | example: "-128" and "+7" read as Int8 |
| `Serialization.Int8RefusesOthers` | Sources/Lark/Serialization.swift:31-37 | example: "128", "" and "-" do not read as Int8 |
| `Serialization.NonDigitsRefused` | Sources/Lark/Serialization.swift:80-90 | example: "abc" is no Int8 and "-1" no UInt8 |
| `Serialization.DeserializeInteger` | Sources/Lark/Serialization.swift:166-172 | an in-range integer whose decimal text the element holds; otherwise, and always without text, `cannotDeserialize` |
| `Serialization.SerializeInteger` | Sources/Lark/Serialization.swift:173-175 | only the text changes, to the decimal text, and every width holding the value deserializes it back |
| `Serialization.DeserializeBool` | Sources/Lark/Serialization.swift:129-136 | succeeds exactly on "1", "true", "0" and "false", true exactly on the first two |
| `Serialization.BoolRoundTrip` | Sources/Lark/Serialization.swift:129-140 | the printed Bool reads back |
| `Serialization.SerializeBool` | Sources/Lark/Serialization.swift:137-139 | only the text changes, to "true" or "false", and reads back |
| `Serialization.DeserializeString` | Sources/Lark/Serialization.swift:192-198 | the element's text, and `cannotDeserialize` exactly when it has none |
| `Serialization.SerializeString` | Sources/Lark/Serialization.swift:199-201 | only the text changes, and reads back |
| `Serialization.DeserializeQName` | Sources/Lark/Serialization.swift:286-288 | a prefixed text resolves its prefix in scope; an unprefixed one takes the inherited target namespace and fails without one |
| `Serialization.SerializeQName` | Sources/Lark/Serialization.swift:289-297 | the local name alone in the target namespace, else under the resolved prefix, else under the least unbound "ns<i>" declared for the URI (the corrected `AddNamespace`); a colon-free name reads back as itself when the resolved prefix reads back |
| `Serialization.SerializeQNameAsWritten` | Sources/Lark/Serialization.swift:289-297 | as written: the same, except that a URI with no prefix is written "ns1:localName" with ns1 rebound to it on the element; a colon-free name reads back from that element when an existing prefix for the URI reads back |
| `Serialization.Ns1ReadsBack` | Sources/Lark/Serialization.swift:289-297 | after rebinding ns1 to a URI, "ns1:localName" reads back as that qualified name |
| `LarkTypes.DeserializeText` | Sources/Lark/Types.swift:4-6 | the element's text, or "" when it has none; it never fails (LarkRuntime/Types.swift:3-13 is the same) |
| `LarkTypes.StringCodecsAgreeOnText` | Sources/Lark/Types.swift:3-10 | on an element without text this codec gives "" where the Serialization.swift one fails; on any text both give it |
| `LarkTypes.DeserializeForced` | Sources/Lark/Types.swift:25-59 | the forced unwrap is the precondition; the value fits the width, is the one the text spells, and agrees with the throwing codec |
| `LarkTypes.MissingTextTraps` | Sources/Lark/Types.swift:27 | an element without text traps the forced integer initialisers |
| `LarkTypes.ForcedRoundTrip` | Sources/Lark/Types.swift:25-59 | what the serializer writes for a value of the width meets the forced unwrap and reads back as that value |
| `StringLists.ParseAll` | Sources/Lark/StringSerializableList.swift:13 | every component parsed in order, or the error of the first component that fails |
| `StringLists.PrintAll` | Sources/Lark/StringSerializableList.swift:20 | every element printed in order, or the error of an element that fails; no failure means success |
| `StringLists.Deserialize` | Sources/Lark/StringSerializableList.swift:12-14 | the text must be present; it succeeds exactly when every space-separated component parses, giving one element per component, each the parse of its component; a failure is the error of some component that fails while every earlier one parses |
| `StringLists.Serialize` | Sources/Lark/StringSerializableList.swift:19-21 | succeeds exactly when every element prints, and then the text is the printed forms joined by single spaces; the empty list is "" |
| `StringLists.RoundTrip` | Sources/Lark/StringSerializableList.swift:12-21 | a non-empty list whose elements print to space-free forms that parse back survives serializing and deserializing |
| `StringLists.EmptyListDoesNotRoundTrip` | Sources/Lark/StringSerializableList.swift:13 | the empty list serializes to "", which never reads back as the empty list |
| `StringLists.DeserializeAllowingEmpty` | Sources/Lark/StringSerializableList.swift:12-14 | the corrected reading: "" is the empty list, any other text reads as before |
| `StringLists.RoundTripAllowingEmpty` | Sources/Lark/StringSerializableList.swift:12-21 | every list of invertible elements with non-empty forms, the empty list included, survives the round trip |
| `Faults.FirstWithName` | Sources/Lark/Fault.swift:17-20 | some node exactly when one has that name as written; then the first such node |
| `Faults.Deserialize` | Sources/Lark/Fault.swift:16-21 | the forced unwraps are the precondition; the texts of the first "faultcode" and "faultstring", no actor, and the children of the first "detail" or none |
| `Faults.AddPart` | Sources/Lark/Fault.swift:24-26 | one new last child with that name and text, nothing else of the element changed |
| `Faults.DetailNode` | Sources/Lark/Fault.swift:28-31 | a new "detail" node whose children are the detail nodes, in order |
| `Faults.FirstWithNameSkips` | Sources/Lark/Fault.swift:17-20 | nodes without the name do not change which node is found first |
| `Faults.ReadsAttachedParts` | Sources/Lark/Fault.swift:16-32 | with no fault part among the earlier children, deserializing finds the parts attached last |
| `Faults.SerializeAsWritten` | Sources/Lark/Fault.swift:23-32 | as written: exactly three new children, code, string and actor, after the old ones; the detail reads back empty |
| `Faults.DetailLost` | Sources/Lark/Fault.swift:28-31 | a fault with detail does not survive the as-written serializer and the deserializer |
| `Faults.Serialize` | Sources/Lark/Fault.swift:23-32 | the corrected serializer also attaches the "detail" node; a fault without an actor then reads back as itself |
| `Faults.XmlStrings` | Sources/Lark/Fault.swift:36 | one rendering per detail node, in order |
| `Faults.Description` | Sources/Lark/Fault.swift:34-38 | "Fault(code=<code>, actor=<actor or nil>, string=<string>, detail=<details joined by ", ">)" |
| `LarkEnvelope.SoapNameSplits` | Sources/Lark/Envelope.swift:22 | "soap:<name>" has prefix soap and local name <name> |
| `LarkEnvelope.New` | Sources/Lark/Envelope.swift:18-28 | a new version 1.0, utf-8, standalone document whose root `soap:Envelope` declares soap and xsi and holds only the body; the body is the element `init(document:)` finds and its prefix resolves to the envelope namespace |
| `LarkEnvelope.BodyResolvesSoap` | Sources/Lark/Envelope.swift:20-23 | from the body, the soap prefix resolves to the envelope namespace |
| `LarkEnvelope.FromDocument` | Sources/Lark/Envelope.swift:30-36 | the root's first envelope-namespace "Body" child, or `noElementWithName` of that name without a root or such a child |
| `LarkEnvelope.Header` | Sources/Lark/Envelope.swift:38-46 | the root's first envelope-namespace "Header", else a new `soap:Header` inserted first; either way it is then the first header, so asking again adds nothing |
| `LarkEnvelope.SerializeHeader` | Sources/Lark/Envelope.swift:100-105 | an element named by the header's local name in its URI, declaring that URI through "xmlns", holding the value's text |
| `RuntimeEnvelope.New` | Sources/LarkRuntime/Envelope.swift:8-16 | a new version 1.1, utf-8, standalone document whose root `soap:Envelope` declares only soap and holds only a `soap:Body`, the one "Body" found there |
| `RuntimeEnvelope.Body` | Sources/LarkRuntime/Envelope.swift:23-25 | the forced unwraps are the precondition; a "Body" of the envelope namespace among the root's children that comes before every other one |
| `RuntimeEnvelope.FirstIsEarliest` | Sources/LarkRuntime/Envelope.swift:24 | the first element so named precedes every other element so named |
| `Validation.BodyOf` | Sources/Lark/Envelope.swift:32 | some body only for a document with a root, and then one of the root's children |
| `Validation.ValidateSoap` | Sources/Lark/Validation.swift:6-23 | a 200 succeeds; a 500 fails with the body's first SOAP fault, with `noElementWithName` for a document without a body, or with the XML error when the bytes are not XML; other codes trap (the precondition) |
| `RuntimeResult.Result.IsFailure` | Sources/LarkRuntime/Result.swift:12-14 | a failure exactly when not a success |
| `RuntimeResult.Result.Value` | Sources/LarkRuntime/Result.swift:16-21 | the payload exactly on a success |
| `RuntimeResult.Result.Error` | Sources/LarkRuntime/Result.swift:23-28 | the error exactly on a failure, that is exactly when there is no value |
| `RuntimeResult.Result.Resolve` | Sources/LarkRuntime/Result.swift:30-35 | returns the value of a success and throws the error of a failure |
| `RuntimeResult.Result.Map` | Sources/LarkRuntime/Result.swift:37-43 | a failure keeps its error; a success becomes the success of `f`'s result, or the failure of the error `f` throws |
| `RuntimeResult.FromResolved` | Sources/LarkRuntime/Result.swift:1-3 | the result a resolved outcome stands for: a success exactly for a returned value |
| `RuntimeResult.ResolveRoundTrip` | Sources/LarkRuntime/Result.swift:30-35 | resolving loses nothing: reading the outcome back gives the same result, both ways |
| `RuntimeResult.MapIdentity` | Sources/LarkRuntime/Result.swift:37-43 | mapping the non-throwing identity changes nothing |
| `RuntimeResult.MapComposition` | Sources/LarkRuntime/Result.swift:37-43 | mapping twice is mapping once with the composition, which stops at the first throw |
| `HelloWorld.WrittenFieldReadsBack` | Sources/Demo/HelloWorldServiceClient.swift:29-31 | a field written under a colon-free prefix is found under its local name and reads back as its value |
| `HelloWorld.ElementsNamedAll` | Sources/Demo/HelloWorldServiceClient.swift:24 | selecting from fields that all have the name keeps them all, in order |
| `HelloWorld.Texts` | Sources/Demo/HelloWorldServiceClient.swift:24 | one text per element, in order, "" for an element without text |
| `HelloWorld.OptionalText` | Sources/Demo/HelloWorldServiceClient.swift:46 | present exactly when some child has the name in the hello namespace, and then the text of such a child |
| `HelloWorld.AddField` | Sources/Demo/HelloWorldServiceClient.swift:52-54 | one new last child named under the scope's prefix for the namespace and holding the value; `invalidNamespace` and nothing added when there is no such prefix |
| `HelloWorld.DeserializeStringArray` | Sources/Demo/HelloWorldServiceClient.swift:23-25 | the texts of all "string" children, in order; none when there are none |
| `HelloWorld.SerializeStringArray` | Sources/Demo/HelloWorldServiceClient.swift:27-33 | one "string" child per item, in order, after the old ones, or `invalidNamespace` with nothing added; behind no "string" children the list reads back |
| `HelloWorld.ElementsNamedNone` | Sources/Demo/HelloWorldServiceClient.swift:24 | selecting from nodes none of which has the name keeps none |
| `HelloWorld.StringsReadBack` | Sources/Demo/HelloWorldServiceClient.swift:23-33 | "string" fields written behind children without one read back as exactly their texts, in order |
| `HelloWorld.DeserializeSayHello` | Sources/Demo/HelloWorldServiceClient.swift:45-48 | the first "name" child's text and the first "times" child's integer, each absent exactly without such a child; the forced integer unwrap is the precondition |
| `HelloWorld.SerializeSayHello` | Sources/Demo/HelloWorldServiceClient.swift:50-61 | a "name" field for a name, then a "times" field for a count, or `invalidNamespace` with nothing added; on an element with neither field the message reads back |
| `HelloWorld.ReadsSayHelloBack` | Sources/Demo/HelloWorldServiceClient.swift:45-61 | the fields as written behind children without either field deserialize to the message |
| `HelloWorld.IntegerReadsBack` | Sources/Demo/HelloWorldServiceClient.swift:47-58 | the decimal text of a count meets the forced unwrap and reads back as the count |
| `HelloWorld.SerializeOptionalField` | Sources/Demo/HelloWorldServiceClient.swift:64-142 | the four one-field messages: the field only for a value, or `invalidNamespace` with nothing added; the value reads back |
| `HelloWorld.DeserializeSayHelloResponse` | Sources/Demo/HelloWorldServiceClient.swift:151-156 | `noElementWithName("say_helloResult")` exactly without such a child, otherwise the string array of such a child |
| `HelloWorld.EmptyFrameResolvesNothing` | Sources/LarkRuntime/Utils.swift:13 | an element declaring nothing resolves a URI exactly as its parent's scope does |
| `HelloWorld.SerializeSayHelloResponseAsWritten` | Sources/Demo/HelloWorldServiceClient.swift:158-162 | as written: any non-empty result throws `invalidNamespace` and attaches nothing, because the new element has no prefix in scope until it is attached |
| `HelloWorld.SerializeSayHelloResponse` | Sources/Demo/HelloWorldServiceClient.swift:158-162 | the corrected order, attach then fill: fails exactly without a prefix for the namespace, else adds one child, and the response reads back |
| `HelloWorld.ReadsResponseBack` | Sources/Demo/HelloWorldServiceClient.swift:151-162 | an appended "say_helloResult" holding the strings, behind children without one, deserializes to those strings |
| `SimpleDiff.ChangeType.Description` | Tests/CodeGeneratorTests/simplediff.swift:14-20 | one character: "+" exactly for an insertion, "-" for a deletion, "=" for a no-op |
| `SimpleDiff.Change.Description` | Tests/CodeGeneratorTests/simplediff.swift:32-41 | a no-op is its bare elements; an insertion or deletion is its elements between "[" plus its sign and "]" |
| `SimpleDiff.ElementsString` | Tests/CodeGeneratorTests/simplediff.swift:28-30 | the elements' texts with no separator: one character per element when each text is one character |
| `SimpleDiff.ElementsStringAppend` | Tests/CodeGeneratorTests/simplediff.swift:28-30 | the text of a concatenation is the concatenation of the texts |
| `SimpleDiff.BeforeAfterAppend` | Tests/CodeGeneratorTests/simplediff.swift:84-101 | the old and new lists of a concatenation of changes are the concatenations |
| `SimpleDiff.Positions` | Tests/CodeGeneratorTests/simplediff.swift:52-57 | exactly the indices holding the element, in increasing order |
| `SimpleDiff.PositionsOfAbsent` | Tests/CodeGeneratorTests/simplediff.swift:54 | an absent element has no indices |
| `SimpleDiff.BeforeIndices` | Tests/CodeGeneratorTests/simplediff.swift:52-57 | keyed by exactly the elements of the old list, each mapped to all its indices in order |
| `SimpleDiff.Run` | Tests/CodeGeneratorTests/simplediff.swift:69-72 | the run ending at two positions is no longer than either prefix |
| `SimpleDiff.RunIsCommon` | Tests/CodeGeneratorTests/simplediff.swift:69-73 | the run measured there is a common run of the two lists |
| `SimpleDiff.RunIsLongest` | Tests/CodeGeneratorTests/simplediff.swift:69-73 | every common run ending at two positions is at most that long |
| `SimpleDiff.StoreRun` | Tests/CodeGeneratorTests/simplediff.swift:73 | storing a run's length keeps every stored entry the run ending there |
| `SimpleDiff.ScanRow` | Tests/CodeGeneratorTests/simplediff.swift:64-81 | one row of the scan leaves the overlay of that row and the best run over the rows so far |
| `SimpleDiff.ExtendsRun` | Tests/CodeGeneratorTests/simplediff.swift:69-72 | one plus the previous row's entry, or 1, is the run ending at the pair |
| `SimpleDiff.ScanStarts` | Tests/CodeGeneratorTests/simplediff.swift:64-68 | the best run so far bounds the row before any of its entries is seen |
| `SimpleDiff.ScanEntry` | Tests/CodeGeneratorTests/simplediff.swift:69-78 | one entry of the row is stored, and the best run is kept or replaced by a strictly longer one |
| `SimpleDiff.ScanImproves` | Tests/CodeGeneratorTests/simplediff.swift:74-78 | a strictly longer run becomes the best, starting where it begins in both lists |
| `SimpleDiff.ScanKeeps` | Tests/CodeGeneratorTests/simplediff.swift:74 | a run no longer than the best leaves it in place |
| `SimpleDiff.RowDone` | Tests/CodeGeneratorTests/simplediff.swift:66-80 | every run ending in the row ends at an index of its element, so the row is covered |
| `SimpleDiff.BestIsLongest` | Tests/CodeGeneratorTests/simplediff.swift:59-82 | after all rows the best run is a longest common run, the first of that length by position in the new list, then the old, and zero exactly without a common element |
| `SimpleDiff.LongestOverlay` | Tests/CodeGeneratorTests/simplediff.swift:59-82 | the scan finds a longest common run, and the first one of that length |
| `SimpleDiff.Diff` | Tests/CodeGeneratorTests/simplediff.swift:50-102 | the changes turn the old list into the new one: their deletions and no-ops spell the old list and their insertions and no-ops the new; no change is empty; without a common element one deletion and one insertion; equal lists give one no-op |
| `SimpleDiff.DiffAround` | Tests/CodeGeneratorTests/simplediff.swift:93-100 | around a common run, the diff of what lies before it, a no-op keeping it and the diff of what lies after it turn the old list into the new one with no empty change; for equal lists that is one no-op |
| `SimpleDiff.NoCommonMeansZero` | Tests/CodeGeneratorTests/simplediff.swift:85 | the longest run is zero exactly when the lists share no element, and is positive for equal non-empty lists |
| `SimpleDiff.IdentityIsOneRun` | Tests/CodeGeneratorTests/simplediff.swift:93-100 | the run is a common run inside both lists, and for equal lists it is the whole list |
| `SimpleDiff.DeleteInsert` | Tests/CodeGeneratorTests/simplediff.swift:85-92 | deleting all of the old list and inserting all of the new turns one into the other |
| `SimpleDiff.DiffJoins` | Tests/CodeGeneratorTests/simplediff.swift:93-100 | the diffs before and after any common run, around its no-op, turn the old list into the new one |
| `Xml.TargetNamespace` | Sources/SchemaParser/QualifiedName+XMLElement.swift:9 | a parsed element's targetNamespace is its own attribute, else the one inherited from the nearest ancestor that has it |
| `Xml.FirstNamed` | Sources/SchemaParser/Schema.swift:156-158 | the first child element with that local name and namespace, seen with the parent's scope; none exactly when no child is so named |
| `Xml.FirstNamedIgnoresLaterChildren` | Sources/SchemaParser/Schema.swift:156 | children after an element that already has a match do not change its first match |

## Left out

- **Networking.** Networking, Alamofire and HTTP are not modelled: Sources/Lark/Client.swift, Request.swift, Response.swift, Alamofire+Extensions.swift, Sources/Lark/Channel.swift, and Sources/LarkRuntime/Client.swift, Transport.swift and Channel.swift. They wrap libraries the repository does not contain and use semaphores, dispatch queues and a logger.
- **`EnvelopeDeserializer`.** Sources/Lark/Envelope.swift:49-65 is not modelled. It is only an adapter to Alamofire's response serializers.
- **Codecs.** The Float, Double, Decimal, Date, Data, URL and AnyType codecs of Sources/Lark/Serialization.swift are not modelled, and neither are Double, Decimal and Data in Sources/Lark/Types.swift. They rest on floating point and on Foundation formatters, base64 and node copying.
- **Loading and command lines.**
  - Not modelled: Sources/SchemaParser/SchemaParser.swift, Sources/SchemaParser/Parser.swift, the three main.swift programs, and the `print(url)` calls of Sources/SchemaParser/WSDL.swift.
  - Fetching and parsing an imported schema is given as a finite map from URL to outcome, the `Web` and `Loader` records.
  - `URL(string:relativeTo:)` is a parameter of those records.
- **Files with nothing to model.** Sources/CodeGenerator/Utils.swift is a regular-expression wrapper. Sources/Demo/server.py is a stub server on a foreign framework. Sources/SOAP/SOAP.swift, Sources/LarkRuntime/Runtime.swift and Package.swift hold only declarations and configuration.
- **Demo service methods.** The `HelloWorldServiceClient` service methods at Sources/Demo/HelloWorldServiceClient.swift:165-206 only hand a message to `send`.
- **`say_nothing` and `say_nothingResponse`.** These structs have no fields: serializing writes nothing and deserializing always succeeds. They have no member of their own.
- **Helpers the repository does not declare.** These are parameters or plain records:
  - `toSwiftTypeName` and `toSwiftPropertyName`, the `Spelling` record;
  - `Indentation` and `LinesOfCode`, the layout parameters of `ClientCode`;
  - `connectedNodes`;
  - `SwiftList` and `SwiftTypealias`;
  - `parseSchema(contentsOf:)`;
  - `toSwiftCode()`.
  - `XSD(deserialize:)`, the `readXsd` parameter of `LegacyWsdl.Loader`, and the import case `XSD.Node.import`, modelled as `LegacyWsdl.XsdNode.ImportNode`. Sources/SchemaParser/XSD.swift declares neither.
  The code printer `SwiftCodeGenerator.generateCode` is not modelled.
- **Hashes.** Swift's `String.hashValue` is a parameter `stringHash` of the hash functions. They state consistency with `==`, not particular values.
- **Import order.** Swift's `Set.popFirst()` returns an unspecified element. The model pops the URL that was queued first, and the results it proves hold for that order.
- **Forced-unwrap preconditions.** These over-approximate: a predicate demands a fact wherever the reader could come to force it, not only where a given document makes it do so. The predicates are `XmlSchema.WellFormed` (through `Xml.Everywhere`), `WebServiceDescription.BindingWellFormed`, `LegacyWsdl.BindingWellFormed`, the two `DownloadsResolve` predicates and the `...Resolvable` predicates of the mappings.
- **Dropped Swift model fields.** The `element` back-reference of a generated `SwiftProperty` is not modelled, nor is the `members` list of a generated class. Nothing in the modelled code reads them.
- **Empty content of a derivation.** Sources/CodeGenerator/Schema+toSwift.swift:27 matches an `.empty` case of a complexContent's restriction or extension. Schema.swift declares only `.sequence` for that content, so the model's `ComplexContent` always carries a sequence and has no such branch.
- **Node descriptions.** The `debugDescription` of the reference-graph `Node` is not modelled. It is used only in messages.
- **`StringSerializableList` collection protocols.** The `Sequence`/`Collection` conformance only forwards to the underlying array, and the model uses the sequence itself. `==` is datatype equality.
- **Foundation's `XMLElement`.**
  - Only element and text nodes are modelled.
  - Setting `stringValue` does not remove the element children in the model.
  - A child records its parent's scope when it is attached. Namespaces declared on an ancestor after that are not seen through the child.
  - Moving a detail node into a fault element does not detach it from its old parent.
- **Fault text.** The `xmlString` of a `Fault.description`'s detail nodes is a parameter. `faultactor` is kept as the string read, not a `URL`.
- **`LarkEnvelope.SerializeHeader`.** The header value's own `serialize(_:)` is reduced to the text it writes into the new child.
- **`Validation.ValidateSoap`.**
  - Parsing the response bytes (`XMLDocument(data: data!)`) is given as its outcome.
  - The envelope is read with Lark's throwing `Envelope(document:)`, which the source calls without `try`.
  - The namespace `NS_SOAP` that it names is the SOAP 1.1 envelope namespace.
  - The error type of the `Result` is left generic.
- **`RuntimeEnvelope.Envelope`.** `init(document:)` is the datatype's constructor, because the source stores the document without checking it.
- **`SimpleDiff.Diff`.** The `Hashable` index dictionary is a `map`. The string interpolation of `Change.description` is a parameter `show`.
- ResolveOrAddPrefix: uses the corrected `AddNamespace`, which binds the least unbound "ns<i>". The source's behaviour, which always rebinds "ns1", is `LarkUtils.ResolveOrAddPrefixAsWritten` (see Findings).
- CreateChildElement: uses the corrected `AddNamespace` in the same way. `LarkUtils.CreateChildElementAsWritten` models the source, and `LarkUtils.NestedChildrenAsWritten` reproduces the output expected at Tests/LarkTests/UtilsTests.swift:27.
- SerializeQName: uses the corrected `AddNamespace` in the same way. `Serialization.SerializeQNameAsWritten` models the source.
- **Which `QualifiedName(type:inTree:)` the new readers call.** Schema.swift:155, 192 and 223 and WebServiceDescription.swift:14-15, 38-39, 173 and 197 read type names with an initialiser that two modules declare. The colon-required one is at Sources/SchemaParser/QualifiedName.swift:12-18, and Lark's, which falls back to the targetNamespace, is at Sources/Lark/QualifiedName.swift:35-50. `XmlSchema` and `WebServiceDescription` call Lark's, as `QualifiedNames.FromType`. Both files `import Lark`. SchemaParser's own initialiser throws `ParseError.invalidNamespacePrefix`, a case that Sources/SchemaParser/Parser.swift does not declare, so it belongs to the older readers of XSD.swift and WSDL.swift, and only `LegacyXsd` and `LegacyWsdl` use it (`QualifiedNames.FromPrefixedType`). If Swift's preference for a module's own type applied instead, a bare `type="Foo"` under a targetNamespace would fail with invalidNamespacePrefix. The model would then accept a name that the source refuses (`QualifiedNames.UnprefixedRoundTrip` states where the two readers differ).
- **Names the source uses but does not define.** The model fixes a meaning for each:
  - `.soap`: Sources/CodeGenerator/Client.swift:6 and Types.swift:62 match an address case that `Port.Address` does not declare (it has `.soap11` and `.soap12`). The model reads it as `.soap11`.
  - Legacy `ParseError` cases: Sources/SchemaParser/WSDL.swift:78, 82, 135 and 166 throw `unsupportedOperation`, `bindingOperationIncomplete`, `unsupportedPortAddress` and `incorrectRootElement`. Sources/SchemaParser/Parser.swift declares only `noName`, `unsupportedType` and `schemaNotFound`. The model adds the missing cases to `ParseErrors.LegacyParseError`.
  - Namespace constants: `NS_XS`, `NS_SOAP`, `NS_SOAP12` and `SOAP_HTTP` are used by SchemaParser but not defined in it. xml.dfy gives them the XML Schema, WSDL SOAP 1.1 binding, WSDL SOAP 1.2 binding and SOAP-over-HTTP transport URIs.
  - `SwiftTypeClass(name:superName:)`: Sources/CodeGenerator/Types.swift:50 calls an initialiser that no file declares. The model gives `SwiftModels.SwiftMetaType.TypeClass` a `superName` field to hold its argument.
- **Test expectations with no code behind them.** These are not modelled:
  - a `.nillable` Swift type;
  - a `QualifiedName` fault code and a parsed `faultactor`;
  - Lark's `HTTPTransport._send`;
  - the `Client(channel:)` and `headers` API.

## Findings

| source | as written | input that shows it | evidently intended | confidence | as-written member | corrected member |
|---|---|---|---|---|---|---|
| Sources/CodeGenerator/WSDL+verify.swift:76-77 | the error is built from `missing` before the built-in XML Schema types are subtracted, so a failing check also lists every built-in type that was referenced | a WSDL with an element of type xs:string and an element of an undeclared type: the error names `TypeNode(xs:string)` as well as the undeclared type (`WsdlVerify.BuiltInTypeReported`) | the error names only the undeclared type, as `WebServiceDescription.verify()` does | not executed | `WsdlVerify.VerificationAsWritten` | `WsdlVerify.Verification` |
| Sources/Lark/Utils.swift:28 | `resolveNamespace(forName: prefix)` looks up the prefix of the name "ns1", which is empty, so it tests the default namespace, and "ns1" is always chosen | a root binding ns1 to ".../0" and a child `ns1:foo` given ".../1": ns1 is redeclared on the child, so the child's own name now resolves to ".../1" (`LarkUtils.AsWrittenShadowsParentPrefix`, `LarkUtils.AsWrittenShadowsTempuriExample`; the toolkit's own expectation at Tests/LarkTests/UtilsTests.swift:27 records this output, and `LarkUtils.NestedChildrenAsWritten` builds it) | the least "ns<i>" not bound in scope, here ns2, so that every existing prefix keeps its meaning | not executed | `LarkUtils.AddNamespaceAsWritten` | `LarkUtils.AddNamespace` |
| Sources/Lark/StringSerializableList.swift:13 | the empty list serializes to "", and "" splits into one empty component, which the element codec must then read | `[]`: it never reads back as `[]` (`StringLists.EmptyListDoesNotRoundTrip`) | "" reads as the empty list, so every list round-trips (`StringLists.RoundTripAllowingEmpty`) | not executed | `StringLists.Deserialize` | `StringLists.DeserializeAllowingEmpty` |
| Sources/Lark/Fault.swift:28-31 | the "detail" node is created and its children are added, but it is never added to the fault element | any fault with non-empty detail reads back with empty detail (`Faults.DetailLost`) | the detail node is attached after faultactor | not executed | `Faults.SerializeAsWritten` | `Faults.Serialize` |
| Sources/Demo/HelloWorldServiceClient.swift:158-162 | the `say_helloResult` node comes back unattached from `createElement`, and `stringArray.serialize` then creates each `string` child through that node, whose scope binds no prefix for the hello namespace, so it throws | a response holding `["Hello"]` throws `invalidNamespace` and writes nothing | attach the node first, then fill it, so that its children find the prefix in the element's scope | not executed | `HelloWorld.SerializeSayHelloResponseAsWritten` | `HelloWorld.SerializeSayHelloResponse` |
