/** `validateSOAP()` (Sources/Lark/Validation.swift): the check Lark applies to each response. A
    200 is a success; a 500 must carry an envelope whose body holds a SOAP fault, which becomes
    the failure; any other status code traps. Parsing the response bytes is given as its
    outcome: the parsed document, or none when the bytes are not XML. */
module Validation {
  import opened Wrappers
  import opened Dom
  import opened QualifiedNames
  import opened Serialization
  import opened Faults
  import opened LarkEnvelope

  datatype ValidationError =
    | FaultReceived(fault: Fault)
    | Malformed(error: DeserializationError)
    | NotXml

  datatype Validated = Success | Failure(error: ValidationError)

  /** The first "Body" of the envelope namespace among the root's children, if any. */
  function BodyOf(document: XMLDocument): (r: Option<XMLElement>)
    reads document
    reads if document.rootElement.Some? then {document.rootElement.value} else {}
    reads if document.rootElement.Some? then document.rootElement.value.children else []
    ensures r.Some? ==> document.rootElement.Some? && r.value in document.rootElement.value.children
  {
    match document.rootElement
    case None => None
    case Some(root) => FirstElementNamed(root.children, "Body", NS_SOAP_ENVELOPE)
  }

  /** The forced unwraps on a 500 are preconditions: once the envelope has a body, the body has a
      "Fault" of the envelope namespace, and that fault has a code and a string. */
  method ValidateSoap(statusCode: int, document: Option<XMLDocument>) returns (r: Validated)
    requires statusCode == 200 || statusCode == 500
    requires statusCode == 500 && document.Some? && BodyOf(document.value).Some? ==>
               var fault := FirstElementNamed(BodyOf(document.value).value.children, "Fault", NS_SOAP_ENVELOPE);
               fault.Some? && Deserializable(fault.value)
    ensures statusCode == 200 ==> r == Success
    ensures statusCode == 500 ==> r.Failure?
    ensures statusCode == 500 && document.None? ==> r == Failure(NotXml)
    ensures statusCode == 500 && document.Some? && BodyOf(document.value).None? ==>
              r == Failure(Malformed(NoElementWithName(QualifiedName(NS_SOAP_ENVELOPE, "Body"))))
    ensures statusCode == 500 && document.Some? && BodyOf(document.value).Some? ==>
              r == Failure(FaultReceived(Deserialize(
                     FirstElementNamed(BodyOf(document.value).value.children, "Fault", NS_SOAP_ENVELOPE).value)))
  {
    if statusCode == 200 {
      return Success;
    }
    if document.None? {
      return Failure(NotXml);
    }
    var envelope := FromDocument(document.value);
    if envelope.Err? {
      return Failure(Malformed(envelope.error));
    }
    assert envelope.value.body == BodyOf(document.value).value;
    var faultElement := FirstElementNamed(envelope.value.body.children, "Fault", NS_SOAP_ENVELOPE).value;
    r := Failure(FaultReceived(Deserialize(faultElement)));
  }
}
