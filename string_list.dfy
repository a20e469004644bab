/** `StringSerializableList` (Sources/Lark/StringSerializableList.swift, and the LarkRuntime copy):
    a list of values that each have a string form, carried in one element's text with the forms
    separated by single spaces. The element codec is a pair of parameters, `parse` for
    `init(string:)` and `show` for `serialize()`; both may throw, which is an `Err`. */
module StringLists {
  import opened Wrappers
  import opened Text

  /** The list itself; `init(_:)` and `init(arrayLiteral:)` are the constructor, and `==` compares
      the contents, as datatype equality does. */
  datatype StringList<T> = StringList(contents: seq<T>)

  /** `map(Element.init(string:))` under `try`: every component parsed, in order, or the error of
      the first component that fails. */
  function ParseAll<T, E>(parts: seq<string>, parse: string -> Result<T, E>): (r: Result<seq<T>, E>)
    ensures r.Ok? <==> forall k :: 0 <= k < |parts| ==> parse(parts[k]).Ok?
    ensures r.Ok? ==> |r.value| == |parts| && forall k :: 0 <= k < |parts| ==> parse(parts[k]) == Ok(r.value[k])
    ensures r.Err? ==> exists k :: 0 <= k < |parts| && parse(parts[k]) == Err(r.error)
                                   && forall j :: 0 <= j < k ==> parse(parts[j]).Ok?
  {
    if |parts| == 0 then Ok([])
    else
      assert forall k :: 1 <= k < |parts| ==> parts[k] == parts[1..][k - 1];
      match parse(parts[0])
      case Err(e) => Err(e)
      case Ok(x) =>
        match ParseAll(parts[1..], parse)
        case Err(e) =>
          ghost var k :| 0 <= k < |parts[1..]| && parse(parts[1..][k]) == Err(e)
                         && forall j :: 0 <= j < k ==> parse(parts[1..][j]).Ok?;
          assert parse(parts[k + 1]) == Err(e);
          Err(e)
        case Ok(xs) => Ok([x] + xs)
  }

  /** `_contents.map { try $0.serialize() }`. */
  function PrintAll<T, E>(contents: seq<T>, show: T -> Result<string, E>): (r: Result<seq<string>, E>)
    ensures r.Ok? ==> |r.value| == |contents| && forall k :: 0 <= k < |contents| ==> show(contents[k]) == Ok(r.value[k])
    ensures r.Err? ==> exists k :: 0 <= k < |contents| && show(contents[k]) == Err(r.error)
    ensures (forall k :: 0 <= k < |contents| ==> show(contents[k]).Ok?) ==> r.Ok?
  {
    if |contents| == 0 then Ok([])
    else
      assert forall k :: 1 <= k < |contents| ==> contents[k] == contents[1..][k - 1];
      match show(contents[0])
      case Err(e) => Err(e)
      case Ok(s) =>
        match PrintAll(contents[1..], show)
        case Err(e) =>
          ghost var k :| 0 <= k < |contents[1..]| && show(contents[1..][k]) == Err(e);
          assert show(contents[k + 1]) == Err(e);
          Err(e)
        case Ok(ss) => Ok([s] + ss)
  }

  /** `init(deserialize:)` as written: the text, which must be present, split at every space and
      each component parsed. */
  function Deserialize<T, E>(text: Option<string>, parse: string -> Result<T, E>): (r: Result<StringList<T>, E>)
    requires text.Some?
    ensures var parts := Split(text.value, ' ');
            r.Ok? <==> forall k :: 0 <= k < |parts| ==> parse(parts[k]).Ok?
    ensures r.Ok? ==> |r.value.contents| == |Split(text.value, ' ')| >= 1
    ensures r.Ok? ==> forall k :: 0 <= k < |r.value.contents| ==> parse(Split(text.value, ' ')[k]) == Ok(r.value.contents[k])
    ensures var parts := Split(text.value, ' ');
            r.Err? ==> exists k :: 0 <= k < |parts| && parse(parts[k]) == Err(r.error)
                                   && forall j :: 0 <= j < k ==> parse(parts[j]).Ok?
  {
    match ParseAll(Split(text.value, ' '), parse)
    case Ok(xs) => Ok(StringList(xs))
    case Err(e) => Err(e)
  }

  /** `serialize(_:)`: the printed forms joined by single spaces. */
  function Serialize<T, E>(list: StringList<T>, show: T -> Result<string, E>): (r: Result<string, E>)
    ensures r.Ok? <==> forall k :: 0 <= k < |list.contents| ==> show(list.contents[k]).Ok?
    ensures r.Ok? ==> r.value == Join(PrintAll(list.contents, show).value, " ")
    ensures r.Err? ==> exists k :: 0 <= k < |list.contents| && show(list.contents[k]) == Err(r.error)
    ensures |list.contents| == 0 ==> r == Ok("")
  {
    match PrintAll(list.contents, show)
    case Ok(parts) => Ok(Join(parts, " "))
    case Err(e) => Err(e)
  }

  /** Every element prints without error to a space-free form that parses back to it. */
  ghost predicate Invertible<T, E>(contents: seq<T>, parse: string -> Result<T, E>, show: T -> Result<string, E>) {
    forall k :: 0 <= k < |contents| ==>
      show(contents[k]).Ok? && ' ' !in show(contents[k]).value && parse(show(contents[k]).value) == Ok(contents[k])
  }

  /** A non-empty list of invertible elements survives serializing and deserializing. */
  lemma RoundTrip<T, E>(list: StringList<T>, parse: string -> Result<T, E>, show: T -> Result<string, E>)
    requires |list.contents| > 0 && Invertible(list.contents, parse, show)
    ensures Serialize(list, show).Ok?
    ensures Deserialize(Some(Serialize(list, show).value), parse) == Ok(list)
  {
    var parts := PrintAll(list.contents, show).value;
    assert forall k :: 0 <= k < |parts| ==> ' ' !in parts[k] && parse(parts[k]) == Ok(list.contents[k]);
    SplitJoin(parts, ' ');
    assert Split(Join(parts, " "), ' ') == parts;
    var r := ParseAll(parts, parse);
    assert r.Ok?;
    assert r.value == list.contents;
  }

  /** The empty list serializes to "", which as written splits into one empty component: it reads
      back as a one-element list or as an error, never as the empty list. */
  lemma EmptyListDoesNotRoundTrip<T, E>(parse: string -> Result<T, E>, show: T -> Result<string, E>)
    ensures Serialize(StringList([]), show) == Ok("")
    ensures Deserialize(Some(""), parse) != Ok(StringList([]))
  {
    assert Split("", ' ') == [""];
  }

  /** `init(deserialize:)` as evidently intended: an empty text is the empty list. */
  function DeserializeAllowingEmpty<T, E>(text: Option<string>, parse: string -> Result<T, E>): (r: Result<StringList<T>, E>)
    requires text.Some?
    ensures text.value == "" ==> r == Ok(StringList([]))
    ensures text.value != "" ==> r == Deserialize(text, parse)
  {
    if text.value == "" then Ok(StringList([])) else Deserialize(text, parse)
  }

  /** With that reading every list of invertible elements with non-empty forms, the empty one
      included, survives the round trip. */
  lemma RoundTripAllowingEmpty<T, E>(list: StringList<T>, parse: string -> Result<T, E>, show: T -> Result<string, E>)
    requires Invertible(list.contents, parse, show)
    requires forall k :: 0 <= k < |list.contents| ==> show(list.contents[k]) != Ok("")
    ensures Serialize(list, show).Ok?
    ensures DeserializeAllowingEmpty(Some(Serialize(list, show).value), parse) == Ok(list)
  {
    if |list.contents| > 0 {
      RoundTrip(list, parse, show);
      var parts := PrintAll(list.contents, show).value;
      JoinNonEmpty(parts, " ");
    }
  }

  lemma {:induction false} JoinNonEmpty(parts: seq<string>, sep: string)
    requires |parts| > 0 && parts[0] != ""
    ensures Join(parts, sep) != ""
  {
    if |parts| > 1 {
      assert |Join(parts, sep)| >= |parts[0]|;
    }
  }
}
