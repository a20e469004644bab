/** Everything the schema and WSDL parsers can throw. Swift's `throws` is untyped, so one union
    carries the error enums of every parser version. */
module ParseErrors {
  import opened QualifiedNames

  /** `SchemaParseError` of the XML Schema parser. */
  datatype SchemaParseError =
    | IncorrectRootElement
    | IncorrectNamespace
    | IncorrectTopLevelElement(localName: string)
    | ImportWithoutNamespace
    | ImportWithoutSchemaLocation
    | ElementWithoutName
    | ElementWithoutTargetNamespace
    | ElementContentNotSupported
    | RestrictionWithoutBase
    | EnumerationWithoutValue
    | SimpleTypeContentNotSupported
    | ComplexTypeContentNotSupported
    | InvalidComplexContentContent
    | ComplexContentContentNotSupported

  /** `Binding.ParseError`. */
  datatype BindingParseError =
    | UnsupportedTransport(transport: string)
    | NoTransport
    | UnsupportedOperation(operation: QualifiedName)
    | BindingOperationMissingInput(operation: QualifiedName)
    | BindingOperationMissingOutput(operation: QualifiedName)
    | UnsupportedBindingOperationEncoding(operation: QualifiedName)
    | InvalidOperationStyleForBindingOperation(operation: QualifiedName)

  /** `WebServiceDescriptionParseError`. */
  datatype DescriptionParseError =
    | UnsupportedImport
    | IncorrectRootElement
    | UnsupportedPortAddress(port: QualifiedName)
    | NodeWithoutTargetNamespace
    | SchemaWithoutTargetNamespace
    | MissingImportedNamespaces(namespaces: set<string>)
    | BindingError(error: BindingParseError)

  /** The `ParseError` cases thrown by the older XSD and WSDL parsers. */
  datatype LegacyParseError =
    | NoName
    | UnsupportedType
    | IncorrectRootElement
    | UnsupportedOperation
    | BindingOperationIncomplete
    | UnsupportedPortAddress

  datatype Error =
    | SchemaFailure(schemaError: SchemaParseError)
    | QNameFailure(qnameError: QNameError)
    | BindingFailure(bindingError: BindingParseError)
    | DescriptionFailure(descriptionError: DescriptionParseError)
    | LegacyFailure(legacyError: LegacyParseError)
    /** Loading the document at an imported schema URL failed. */
    | DownloadFailed(url: string)
}
