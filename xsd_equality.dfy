/** The structural `==` and `hashValue` that XSD+Extensions.swift gives a schema element tree: an
    element with a name and a content that is either a base type or a complex type, whose content is
    a sequence of elements or empty. The declarations of these types are not part of this model;
    the datatypes below carry exactly the fields the extensions compare. */
module XsdEquality {
  import opened Wrappers
  import opened Text
  import opened QualifiedNames

  datatype Element = Element(name: QualifiedName, content: Content)

  datatype Content = Base(base: QualifiedName) | Complex(complex: Complex)

  datatype Complex = Complex(name: Option<QualifiedName>, content: ComplexContent)

  datatype ComplexContent = Sequence(elements: seq<Element>) | Empty

  /** Swift's `==` on an optional name: both absent, or both present and `==`. */
  predicate OptionalNameEquals(a: Option<QualifiedName>, b: Option<QualifiedName>) {
    match (a, b)
    case (None, None) => true
    case (Some(x), Some(y)) => Equals(x, y)
    case _ => false
  }

  /** `Element ==`: the names and the contents agree. */
  predicate ElementEquals(a: Element, b: Element)
    decreases a, 3
  {
    Equals(a.name, b.name) && ContentEquals(a.content, b.content)
  }

  /** `Element.Content ==`: base with base by name, complex with complex structurally. */
  predicate ContentEquals(a: Content, b: Content)
    decreases a, 2
  {
    match (a, b)
    case (Base(x), Base(y)) => Equals(x, y)
    case (Complex(x), Complex(y)) => ComplexEquals(x, y)
    case _ => false
  }

  /** `Complex ==`: the names and the contents agree. */
  predicate ComplexEquals(a: Complex, b: Complex)
    decreases a, 1
  {
    OptionalNameEquals(a.name, b.name) && ComplexContentEquals(a.content, b.content)
  }

  /** `Complex.Content ==`: empty with empty, sequences element-wise; `Sequence ==` compares the
      element arrays, which Swift does by length and then position by position. */
  predicate ComplexContentEquals(a: ComplexContent, b: ComplexContent)
    decreases a, 0
  {
    match (a, b)
    case (Empty, Empty) => true
    case (Sequence(xs), Sequence(ys)) =>
      |xs| == |ys| && forall i :: 0 <= i < |xs| ==> ElementEquals(xs[i], ys[i])
    case _ => false
  }

  /** The hand-written equality of an element tree is exactly structural equality. */
  lemma {:induction false} ElementEqualsIsEquality(a: Element, b: Element)
    ensures ElementEquals(a, b) <==> a == b
    decreases a, 3
  {
    ContentEqualsIsEquality(a.content, b.content);
  }

  lemma {:induction false} ContentEqualsIsEquality(a: Content, b: Content)
    ensures ContentEquals(a, b) <==> a == b
    decreases a, 2
  {
    match (a, b)
    case (Complex(x), Complex(y)) => ComplexEqualsIsEquality(x, y);
    case _ =>
  }

  lemma {:induction false} ComplexEqualsIsEquality(a: Complex, b: Complex)
    ensures ComplexEquals(a, b) <==> a == b
    decreases a, 1
  {
    ComplexContentEqualsIsEquality(a.content, b.content);
  }

  lemma {:induction false} ComplexContentEqualsIsEquality(a: ComplexContent, b: ComplexContent)
    ensures ComplexContentEquals(a, b) <==> a == b
    decreases a, 0
  {
    match (a, b)
    case (Sequence(xs), Sequence(ys)) =>
      if |xs| == |ys| {
        forall i | 0 <= i < |xs|
          ensures ElementEquals(xs[i], ys[i]) <==> xs[i] == ys[i]
        {
          ElementEqualsIsEquality(xs[i], ys[i]);
        }
      }
    case _ =>
  }

  /** `Element.hashValue`: the name's hash alone. */
  function ElementHash(e: Element, stringHash: string -> Int64): (h: Int64)
    requires INT_MIN <= TruncRem(stringHash(e.name.uri), 17) + stringHash(e.name.localName) <= INT_MAX
  {
    Hash(e.name, stringHash)
  }

  /** Elements that are `==` hash alike, and so do elements that share a name but differ in content. */
  lemma EqualElementsHashAlike(a: Element, b: Element, stringHash: string -> Int64)
    requires INT_MIN <= TruncRem(stringHash(a.name.uri), 17) + stringHash(a.name.localName) <= INT_MAX
    requires ElementEquals(a, b) || a.name == b.name
    ensures INT_MIN <= TruncRem(stringHash(b.name.uri), 17) + stringHash(b.name.localName) <= INT_MAX
    ensures ElementHash(a, stringHash) == ElementHash(b, stringHash)
  {
  }
}
