/** The base-type codecs of Sources/Lark/Types.swift, which LarkRuntime's Types.swift repeats for
    String and Int. Where the Serialization.swift codecs throw `cannotDeserialize`, these force the
    conversion: String reads a missing text as "", and the integer types trap on text that is not a
    value of their width. Bool and the serializers are the same as in Serialization.swift and are
    shared with that module. */
module LarkTypes {
  import opened Wrappers
  import opened Text
  import opened Dom
  import opened Serialization

  /** String's `init(deserialize:)`: the text, or "" when there is none; it never fails. */
  function DeserializeText(node: XMLElement): (r: string)
    reads node
    ensures node.stringValue.Some? ==> r == node.stringValue.value
    ensures node.stringValue.None? ==> r == ""
  {
    node.stringValue.GetOr("")
  }

  /** Where the two String codecs part: on an element without text this one gives "" and the
      Serialization.swift one fails; on any text both give that text. */
  lemma StringCodecsAgreeOnText(node: XMLElement)
    ensures node.stringValue.None? ==> DeserializeText(node) == "" && DeserializeString(node.stringValue).Err?
    ensures node.stringValue.Some? ==> DeserializeString(node.stringValue) == Ok(DeserializeText(node))
  {
  }

  /** `Int(node.stringValue ?? "")!` and its Int32, UInt64 and Int64 twins: the forced unwrap is
      the precondition, which an element without text never meets. */
  function DeserializeForced(width: IntWidth, node: XMLElement): (r: int)
    reads node
    requires ReadInteger(width, node.stringValue.GetOr("")).Some?
    ensures width.Holds(r) && ParseInteger(node.stringValue.value) == Some(r)
    ensures DeserializeInteger(width, node) == Ok(r)
  {
    ReadInteger(width, node.stringValue.GetOr("")).value
  }

  /** An element without text traps the forced integer initialisers. */
  lemma MissingTextTraps(width: IntWidth)
    ensures ReadInteger(width, "").None?
  {
  }

  /** What `SerializeInteger` writes meets the forced unwrap and reads back. */
  lemma ForcedRoundTrip(width: IntWidth, x: int, node: XMLElement)
    requires width.Holds(x) && node.stringValue == Some(IntToString(x))
    ensures ReadInteger(width, node.stringValue.GetOr("")).Some?
    ensures DeserializeForced(width, node) == x
  {
    IntegerRoundTrip(width, x);
  }
}
