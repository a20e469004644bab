/** `generate(wsdl:service:binding:)`: it builds the reference graph, gives every connected element
    and type a Swift class name that no other node has, and then emits the schema's types and one
    client per service. `toSwiftTypeName`, `connectedNodes` and the per-item `toSwift` conversions are
    parameters here; the code printer `SwiftCodeGenerator.generateCode` is not part of this model. */
module Generator {
  import opened Wrappers
  import opened Text
  import opened QualifiedNames
  import opened LegacyGraph
  import XS = XmlSchema
  import XE = XsdEquality
  import WSD = WebServiceDescription
  import BaseTypes
  import Graphs

  type Identifier = string

  /** `TypeMapping`: the Swift name given to a node. */
  type TypeMapping = map<Node, Identifier>

  // ---------------------------------------------------------------- the seed

  /** `baseTypes.dictionary { (.type($0), $1) }`. */
  function Seed(table: map<QualifiedName, Identifier>): (m: TypeMapping)
    ensures forall n :: n in m <==> n.TypeNode? && n.name in table
    ensures forall q :: q in table ==> m[TypeNode(q)] == table[q]
  {
    map q | q in table :: TypeNode(q) := table[q]
  }

  // ---------------------------------------------------------------- choosing a type name

  /** `"\(baseName)Type\(k)"`. */
  function Suffixed(baseName: string, k: nat): string {
    baseName + "Type" + NatToString(k)
  }

  lemma SuffixedInjective(baseName: string, j: nat, k: nat)
    requires Suffixed(baseName, j) == Suffixed(baseName, k)
    ensures j == k
  {
    var n := |baseName| + 4;
    assert Suffixed(baseName, j)[n..] == NatToString(j);
    assert Suffixed(baseName, k)[n..] == NatToString(k);
    NatRoundTrip(j);
    NatRoundTrip(k);
  }

  /** The suffixed names from 2 up to but not including `k`. */
  function Tried(baseName: string, k: nat): set<string> {
    set j | 2 <= j < k :: Suffixed(baseName, j)
  }

  /** The least `k` from `from` on whose suffixed name is not in scope. */
  function FreeSuffix(baseName: string, scope: set<string>, from: nat): (k: nat)
    requires from >= 2
    requires forall j :: 2 <= j < from ==> Suffixed(baseName, j) in scope
    ensures k >= from && Suffixed(baseName, k) !in scope
    ensures forall j :: 2 <= j < k ==> Suffixed(baseName, j) in scope
    decreases scope - Tried(baseName, from)
  {
    if Suffixed(baseName, from) !in scope then from
    else
      assert Suffixed(baseName, from) !in Tried(baseName, from) by {
        forall j | 2 <= j < from ensures Suffixed(baseName, j) != Suffixed(baseName, from) {
          if Suffixed(baseName, j) == Suffixed(baseName, from) { SuffixedInjective(baseName, j, from); }
        }
      }
      assert Tried(baseName, from + 1) == Tried(baseName, from) + {Suffixed(baseName, from)};
      FreeSuffix(baseName, scope, from + 1)
  }

  /** The name the type loop gives a type whose Swift name would be `baseName`. */
  function TypeName(baseName: string, scope: set<string>): (name: Identifier)
    ensures name !in scope
    ensures baseName !in scope ==> name == baseName
    ensures baseName in scope && baseName + "Type" !in scope ==> name == baseName + "Type"
  {
    if baseName !in scope then baseName
    else if baseName + "Type" !in scope then baseName + "Type"
    else Suffixed(baseName, FreeSuffix(baseName, scope, 2))
  }

  /** When both the plain and the `Type` name are taken, the name is `baseName + "Type" + k` for the
      least `k` from 2 on that is free. */
  lemma TypeNameTakesLeastSuffix(baseName: string, scope: set<string>)
    requires baseName in scope && baseName + "Type" in scope
    ensures exists k :: k >= 2 && TypeName(baseName, scope) == Suffixed(baseName, k) &&
                        forall j :: 2 <= j < k ==> Suffixed(baseName, j) in scope
  {
    var k := FreeSuffix(baseName, scope, 2);
    assert TypeName(baseName, scope) == Suffixed(baseName, k);
  }

  /** `(2...Int.max).lazy.map { … }.first { !scope.contains($0) }!`, which the `!` unwraps: the
      search always ends, since the scope is finite. */
  method FirstFreeSuffix(baseName: string, scope: set<string>) returns (k: nat)
    ensures k == FreeSuffix(baseName, scope, 2)
  {
    k := 2;
    while Suffixed(baseName, k) in scope
      invariant k >= 2
      invariant forall j :: 2 <= j < k ==> Suffixed(baseName, j) in scope
      invariant FreeSuffix(baseName, scope, k) == FreeSuffix(baseName, scope, 2)
      decreases scope - Tried(baseName, k)
    {
      assert Suffixed(baseName, k) !in Tried(baseName, k) by {
        forall j | 2 <= j < k ensures Suffixed(baseName, j) != Suffixed(baseName, k) {
          if Suffixed(baseName, j) == Suffixed(baseName, k) { SuffixedInjective(baseName, j, k); }
        }
      }
      assert Tried(baseName, k + 1) == Tried(baseName, k) + {Suffixed(baseName, k)};
      k := k + 1;
    }
  }

  /** The `if … else if … else` that picks a type's class name. */
  method ChooseTypeName(baseName: string, scope: set<string>) returns (name: Identifier)
    ensures name == TypeName(baseName, scope)
  {
    if baseName !in scope {
      name := baseName;
    } else if baseName + "Type" !in scope {
      name := baseName + "Type";
    } else {
      var k := FirstFreeSuffix(baseName, scope);
      name := Suffixed(baseName, k);
    }
  }

  // ---------------------------------------------------------------- the two naming loops

  /** `for case let .element(node) in nodes`: the element nodes, in order. */
  function ElementsOf(nodes: seq<Node>): (r: seq<Node>)
    ensures forall n :: n in r <==> n in nodes && n.ElementNode?
    ensures NoDuplicates(nodes) ==> NoDuplicates(r)
  {
    if |nodes| == 0 then []
    else
      var init := nodes[..|nodes| - 1];
      assert forall k :: 0 <= k < |init| ==> init[k] == nodes[k];
      ElementsOf(init) + (if nodes[|nodes| - 1].ElementNode? then [nodes[|nodes| - 1]] else [])
  }

  /** `for case let .type(node) in nodes`: the type nodes, in order. */
  function TypesOf(nodes: seq<Node>): (r: seq<Node>)
    ensures forall n :: n in r <==> n in nodes && n.TypeNode?
    ensures NoDuplicates(nodes) ==> NoDuplicates(r)
  {
    if |nodes| == 0 then []
    else
      var init := nodes[..|nodes| - 1];
      assert forall k :: 0 <= k < |init| ==> init[k] == nodes[k];
      TypesOf(init) + (if nodes[|nodes| - 1].TypeNode? then [nodes[|nodes| - 1]] else [])
  }

  predicate NoDuplicates<T(==)>(xs: seq<T>) {
    forall i, j :: 0 <= i < j < |xs| ==> xs[i] != xs[j]
  }

  function Members(names: seq<Identifier>): (s: set<Identifier>)
    ensures forall x :: x in s <==> x in names
  {
    set i | 0 <= i < |names| :: names[i]
  }

  lemma MembersSnoc(names: seq<Identifier>, x: Identifier)
    ensures Members(names + [x]) == Members(names) + {x}
  {
  }

  /** `m` with `nodes[k]` set to `names[k]`, one after the other. */
  function Assigned(m: TypeMapping, nodes: seq<Node>, names: seq<Identifier>): TypeMapping
    requires |nodes| == |names|
  {
    if |nodes| == 0 then m
    else Assigned(m, nodes[..|nodes| - 1], names[..|names| - 1])[nodes[|nodes| - 1] := names[|names| - 1]]
  }

  /** Assigning names to distinct nodes: each node gets its own name, and every other entry stays. */
  lemma {:induction false} AssignedMeaning(m: TypeMapping, nodes: seq<Node>, names: seq<Identifier>)
    requires |nodes| == |names| && NoDuplicates(nodes)
    ensures forall n :: n in Assigned(m, nodes, names) <==> n in m || n in nodes
    ensures forall k :: 0 <= k < |nodes| ==> Assigned(m, nodes, names)[nodes[k]] == names[k]
    ensures forall n :: n in m && n !in nodes ==> Assigned(m, nodes, names)[n] == m[n]
  {
    if |nodes| > 0 {
      var init, initNames := nodes[..|nodes| - 1], names[..|names| - 1];
      AssignedMeaning(m, init, initNames);
      assert nodes == init + [nodes[|nodes| - 1]];
      forall k | 0 <= k < |init| ensures init[k] != nodes[|nodes| - 1] && initNames[k] == names[k] {
        assert nodes[k] != nodes[|nodes| - 1];
      }
    }
  }

  lemma AssignedSnoc(m: TypeMapping, nodes: seq<Node>, names: seq<Identifier>, n: Node, name: Identifier)
    requires |nodes| == |names|
    ensures Assigned(m, nodes + [n], names + [name]) == Assigned(m, nodes, names)[n := name]
  {
    assert (nodes + [n])[..|nodes|] == nodes;
    assert (names + [name])[..|names|] == names;
  }

  /** The names of the element loop: `toSwiftTypeName` of each local name. */
  function ElementNames(elements: seq<Node>, toSwiftTypeName: string -> string): (r: seq<Identifier>)
    ensures |r| == |elements|
    ensures forall i :: 0 <= i < |elements| ==> r[i] == toSwiftTypeName(elements[i].name.localName)
  {
    seq(|elements|, i requires 0 <= i < |elements| => toSwiftTypeName(elements[i].name.localName))
  }

  /** `fatalError("Element name must be unique")` is never reached. */
  predicate ElementNamesUnique(elements: seq<Node>, toSwiftTypeName: string -> string) {
    NoDuplicates(ElementNames(elements, toSwiftTypeName))
  }

  /** The names the type loop chooses, one per type in order, each added to the scope in turn. */
  function TypeNames(types: seq<Node>, scope: set<string>, toSwiftTypeName: string -> string): (r: seq<Identifier>)
    ensures |r| == |types|
  {
    if |types| == 0 then []
    else
      var earlier := TypeNames(types[..|types| - 1], scope, toSwiftTypeName);
      earlier + [TypeName(toSwiftTypeName(types[|types| - 1].name.localName), scope + Members(earlier))]
  }

  lemma TypeNamesSnoc(types: seq<Node>, n: Node, scope: set<string>, toSwiftTypeName: string -> string)
    ensures var earlier := TypeNames(types, scope, toSwiftTypeName);
            TypeNames(types + [n], scope, toSwiftTypeName) ==
              earlier + [TypeName(toSwiftTypeName(n.name.localName), scope + Members(earlier))]
  {
    assert (types + [n])[..|types|] == types;
  }

  /** Every name the type loop chooses is new to the scope it started with, and they all differ. */
  lemma {:induction false} TypeNamesFresh(types: seq<Node>, scope: set<string>, toSwiftTypeName: string -> string)
    ensures forall i :: 0 <= i < |types| ==> TypeNames(types, scope, toSwiftTypeName)[i] !in scope
    ensures NoDuplicates(TypeNames(types, scope, toSwiftTypeName))
  {
    if |types| > 0 {
      var earlier := TypeNames(types[..|types| - 1], scope, toSwiftTypeName);
      TypeNamesFresh(types[..|types| - 1], scope, toSwiftTypeName);
      var last := TypeName(toSwiftTypeName(types[|types| - 1].name.localName), scope + Members(earlier));
      assert TypeNames(types, scope, toSwiftTypeName) == earlier + [last];
    }
  }

  /** The first loop of `generate`: every element gets `toSwiftTypeName` of its local name, which
      joins the scope. */
  method NameElements(seed: TypeMapping, elements: seq<Node>, toSwiftTypeName: string -> string)
    returns (mapping: TypeMapping, scope: set<Identifier>)
    requires ElementNamesUnique(elements, toSwiftTypeName)
    ensures scope == Members(ElementNames(elements, toSwiftTypeName))
    ensures mapping == Assigned(seed, elements, ElementNames(elements, toSwiftTypeName))
  {
    mapping := seed;
    scope := {};
    for i := 0 to |elements|
      invariant scope == Members(ElementNames(elements[..i], toSwiftTypeName))
      invariant mapping == Assigned(seed, elements[..i], ElementNames(elements[..i], toSwiftTypeName))
    {
      var node := elements[i];
      var className := toSwiftTypeName(node.name.localName);
      ghost var names := ElementNames(elements[..i], toSwiftTypeName);
      assert elements[..i + 1] == elements[..i] + [node];
      assert ElementNames(elements[..i + 1], toSwiftTypeName) == names + [className];
      MembersSnoc(names, className);
      AssignedSnoc(seed, elements[..i], names, node, className);
      mapping := mapping[node := className];
      scope := scope + {className};
    }
    assert elements[..|elements|] == elements;
  }

  /** The second loop of `generate`: every type gets the first free name that `TypeName` picks
      against the scope so far, which then joins the scope. */
  method NameTypes(mapping0: TypeMapping, scope0: set<Identifier>, types: seq<Node>, toSwiftTypeName: string -> string)
    returns (mapping: TypeMapping, scope: set<Identifier>)
    ensures scope == scope0 + Members(TypeNames(types, scope0, toSwiftTypeName))
    ensures mapping == Assigned(mapping0, types, TypeNames(types, scope0, toSwiftTypeName))
  {
    mapping := mapping0;
    scope := scope0;
    for i := 0 to |types|
      invariant scope == scope0 + Members(TypeNames(types[..i], scope0, toSwiftTypeName))
      invariant mapping == Assigned(mapping0, types[..i], TypeNames(types[..i], scope0, toSwiftTypeName))
    {
      var node := types[i];
      ghost var names := TypeNames(types[..i], scope0, toSwiftTypeName);
      assert types[..i + 1] == types[..i] + [node];
      TypeNamesSnoc(types[..i], node, scope0, toSwiftTypeName);
      var className := ChooseTypeName(toSwiftTypeName(node.name.localName), scope);
      MembersSnoc(names, className);
      AssignedSnoc(mapping0, types[..i], names, node, className);
      mapping := mapping[node := className];
      scope := scope + {className};
    }
    assert types[..|types|] == types;
  }

  /** The mapping both loops leave behind. */
  function Naming(seed: TypeMapping, nodes: seq<Node>, toSwiftTypeName: string -> string): TypeMapping {
    Assigned(Assigned(seed, ElementsOf(nodes), ElementNamesOf(nodes, toSwiftTypeName)),
             TypesOf(nodes), TypeNamesOf(nodes, toSwiftTypeName))
  }

  /** The names of the connected elements, and those the type loop picks after them. */
  function ElementNamesOf(nodes: seq<Node>, toSwiftTypeName: string -> string): (r: seq<Identifier>)
    ensures |r| == |ElementsOf(nodes)|
  {
    ElementNames(ElementsOf(nodes), toSwiftTypeName)
  }

  function TypeNamesOf(nodes: seq<Node>, toSwiftTypeName: string -> string): (r: seq<Identifier>)
    ensures |r| == |TypesOf(nodes)|
  {
    TypeNames(TypesOf(nodes), Members(ElementNamesOf(nodes, toSwiftTypeName)), toSwiftTypeName)
  }

  /** The entries of `Naming`: every connected element and type gets the name its loop gave it,
      and nothing else in the seed changes. */
  lemma NamingEntries(seed: TypeMapping, nodes: seq<Node>, toSwiftTypeName: string -> string)
    requires NoDuplicates(nodes)
    ensures forall n :: n in Naming(seed, nodes, toSwiftTypeName) <==>
              n in seed || (n in nodes && (n.ElementNode? || n.TypeNode?))
    ensures forall k :: 0 <= k < |ElementsOf(nodes)| ==>
              Naming(seed, nodes, toSwiftTypeName)[ElementsOf(nodes)[k]] == ElementNamesOf(nodes, toSwiftTypeName)[k]
    ensures forall k :: 0 <= k < |TypesOf(nodes)| ==>
              Naming(seed, nodes, toSwiftTypeName)[TypesOf(nodes)[k]] == TypeNamesOf(nodes, toSwiftTypeName)[k]
    ensures forall n :: n in seed && n !in nodes ==> Naming(seed, nodes, toSwiftTypeName)[n] == seed[n]
  {
    var elements, types := ElementsOf(nodes), TypesOf(nodes);
    var elementNames := ElementNamesOf(nodes, toSwiftTypeName);
    var typeNames := TypeNamesOf(nodes, toSwiftTypeName);
    var first := Assigned(seed, elements, elementNames);
    AssignedMeaning(seed, elements, elementNames);
    AssignedMeaning(first, types, typeNames);
    forall k | 0 <= k < |elements| ensures elements[k] !in types {
      assert elements[k] in elements;
    }
  }

  /** Connected elements keep their plain Swift names, and nothing else in the seed changes. */
  lemma ElementsKeepPlainNames(seed: TypeMapping, nodes: seq<Node>, toSwiftTypeName: string -> string)
    requires NoDuplicates(nodes)
    ensures forall n :: n in nodes && n.ElementNode? ==>
              n in Naming(seed, nodes, toSwiftTypeName) && Naming(seed, nodes, toSwiftTypeName)[n] == toSwiftTypeName(n.name.localName)
  {
    NamingEntries(seed, nodes, toSwiftTypeName);
    forall n | n in nodes && n.ElementNode?
      ensures Naming(seed, nodes, toSwiftTypeName)[n] == toSwiftTypeName(n.name.localName)
    {
      var elements := ElementsOf(nodes);
      var i := IndexIn(elements, n);
      assert Naming(seed, nodes, toSwiftTypeName)[elements[i]] == ElementNamesOf(nodes, toSwiftTypeName)[i];
    }
  }

  /** No two connected elements or types end up with the same Swift name. */
  lemma NamesDistinct(seed: TypeMapping, nodes: seq<Node>, toSwiftTypeName: string -> string, a: Node, b: Node)
    requires NoDuplicates(nodes)
    requires ElementNamesUnique(ElementsOf(nodes), toSwiftTypeName)
    requires a in nodes && b in nodes && a != b
    requires (a.ElementNode? || a.TypeNode?) && (b.ElementNode? || b.TypeNode?)
    ensures a in Naming(seed, nodes, toSwiftTypeName) && b in Naming(seed, nodes, toSwiftTypeName)
    ensures Naming(seed, nodes, toSwiftTypeName)[a] != Naming(seed, nodes, toSwiftTypeName)[b]
  {
    var elementNames := ElementNamesOf(nodes, toSwiftTypeName);
    var typeNames := TypeNamesOf(nodes, toSwiftTypeName);
    TypeNamesFresh(TypesOf(nodes), Members(elementNames), toSwiftTypeName);
    var ia := NamedAt(seed, nodes, toSwiftTypeName, a);
    var ib := NamedAt(seed, nodes, toSwiftTypeName, b);
    assert NoDuplicates(elementNames);
    PickedNamesDiffer(elementNames, typeNames, a.ElementNode?, ia, b.ElementNode?, ib);
  }

  /** Two different positions in the element names and the fresh type names hold different names. */
  lemma PickedNamesDiffer(elementNames: seq<Identifier>, typeNames: seq<Identifier>,
                          aIsElement: bool, ia: nat, bIsElement: bool, ib: nat)
    requires NoDuplicates(elementNames) && NoDuplicates(typeNames)
    requires forall i :: 0 <= i < |typeNames| ==> typeNames[i] !in Members(elementNames)
    requires ia < (if aIsElement then |elementNames| else |typeNames|)
    requires ib < (if bIsElement then |elementNames| else |typeNames|)
    requires aIsElement == bIsElement ==> ia != ib
    ensures (if aIsElement then elementNames[ia] else typeNames[ia]) != (if bIsElement then elementNames[ib] else typeNames[ib])
  {
    if aIsElement == bIsElement {
      var names := if aIsElement then elementNames else typeNames;
      if ia < ib { assert names[ia] != names[ib]; } else { assert names[ib] != names[ia]; }
    } else if aIsElement {
      assert elementNames[ia] in Members(elementNames);
    } else {
      assert elementNames[ib] in Members(elementNames);
    }
  }

  /** The index at which a connected element or type sits in its list, and the name it was given. */
  lemma NamedAt(seed: TypeMapping, nodes: seq<Node>, toSwiftTypeName: string -> string, n: Node) returns (i: nat)
    requires NoDuplicates(nodes) && n in nodes && (n.ElementNode? || n.TypeNode?)
    ensures n in Naming(seed, nodes, toSwiftTypeName)
    ensures n.ElementNode? ==> i < |ElementsOf(nodes)| && ElementsOf(nodes)[i] == n
                               && Naming(seed, nodes, toSwiftTypeName)[n] == ElementNamesOf(nodes, toSwiftTypeName)[i]
    ensures n.TypeNode? ==> i < |TypesOf(nodes)| && TypesOf(nodes)[i] == n
                            && Naming(seed, nodes, toSwiftTypeName)[n] == TypeNamesOf(nodes, toSwiftTypeName)[i]
  {
    NamingEntries(seed, nodes, toSwiftTypeName);
    if n.ElementNode? {
      i := IndexIn(ElementsOf(nodes), n);
    } else {
      i := IndexIn(TypesOf(nodes), n);
    }
  }

  lemma IndexIn(xs: seq<Node>, x: Node) returns (i: nat)
    requires x in xs
    ensures i < |xs| && xs[i] == x
  {
    i :| 0 <= i < |xs| && xs[i] == x;
  }

  /** Both loops over the connected nodes, elements first: in the result every connected element has
      `toSwiftTypeName` of its local name, every connected type the name `TypeName` picked for it,
      and every other entry of the seed is unchanged; the names given are pairwise distinct. */
  method AssignNames(seed: TypeMapping, nodes: seq<Node>, toSwiftTypeName: string -> string)
    returns (mapping: TypeMapping, scope: set<Identifier>)
    requires NoDuplicates(nodes)
    requires ElementNamesUnique(ElementsOf(nodes), toSwiftTypeName)
    ensures scope == Members(ElementNamesOf(nodes, toSwiftTypeName)) + Members(TypeNamesOf(nodes, toSwiftTypeName))
    ensures mapping == Naming(seed, nodes, toSwiftTypeName)
  {
    var elementMapping, elementScope := NameElements(seed, ElementsOf(nodes), toSwiftTypeName);
    mapping, scope := NameTypes(elementMapping, elementScope, TypesOf(nodes), toSwiftTypeName);
  }

  lemma ClashLists(e: QualifiedName, t: QualifiedName)
    ensures ElementsOf([TypeNode(t), ElementNode(e)]) == [ElementNode(e)]
    ensures TypesOf([TypeNode(t), ElementNode(e)]) == [TypeNode(t)]
  {
    var nodes := [TypeNode(t), ElementNode(e)];
    assert nodes[..1] == [TypeNode(t)];
    assert [TypeNode(t)][..0] == [];
    assert ElementsOf([TypeNode(t)]) == ElementsOf([]) + [];
    assert ElementsOf(nodes) == ElementsOf([TypeNode(t)]) + [ElementNode(e)];
    assert TypesOf([TypeNode(t)]) == TypesOf([]) + [TypeNode(t)];
    assert TypesOf(nodes) == TypesOf([TypeNode(t)]) + [];
  }

  lemma ClashNames(e: QualifiedName, t: QualifiedName, toSwiftTypeName: string -> string)
    requires toSwiftTypeName(e.localName) == toSwiftTypeName(t.localName)
    ensures ElementNamesOf([TypeNode(t), ElementNode(e)], toSwiftTypeName) == [toSwiftTypeName(e.localName)]
    ensures TypeNamesOf([TypeNode(t), ElementNode(e)], toSwiftTypeName) == [toSwiftTypeName(e.localName) + "Type"]
  {
    ClashLists(e, t);
    var name := toSwiftTypeName(e.localName);
    assert Members([name]) == {name};
    assert |name + "Type"| != |name|;
    assert [TypeNode(t)][..0] == [];
    assert TypeNames([], {name}, toSwiftTypeName) == [];
    assert Members([]) == {};
  }

  /** A connected element and a connected type that would get the same Swift name, with the type
      walked first: the element still keeps the plain name and the type takes the `Type` suffix. */
  lemma ElementWinsClash(seed: TypeMapping, e: QualifiedName, t: QualifiedName, toSwiftTypeName: string -> string)
    requires toSwiftTypeName(e.localName) == toSwiftTypeName(t.localName)
    ensures var m := Naming(seed, [TypeNode(t), ElementNode(e)], toSwiftTypeName);
            && ElementNode(e) in m && m[ElementNode(e)] == toSwiftTypeName(e.localName)
            && TypeNode(t) in m && m[TypeNode(t)] == toSwiftTypeName(e.localName) + "Type"
  {
    var nodes := [TypeNode(t), ElementNode(e)];
    ClashLists(e, t);
    ClashNames(e, t, toSwiftTypeName);
    NamingEntries(seed, nodes, toSwiftTypeName);
    assert ElementsOf(nodes)[0] == ElementNode(e);
    assert TypesOf(nodes)[0] == TypeNode(t);
  }

  // ---------------------------------------------------------------- emission

  /** `for case let .element(element) in wsdl.schema`, and likewise for complex and simple types. */
  function ElementItems(schema: seq<SchemaItem>): (r: seq<XE.Element>)
    ensures |r| <= |schema|
  {
    if |schema| == 0 then []
    else ElementItems(schema[..|schema| - 1]) +
         (if schema[|schema| - 1].ElementItem? then [schema[|schema| - 1].element] else [])
  }

  function ComplexItems(schema: seq<SchemaItem>): (r: seq<XE.Complex>)
    ensures |r| <= |schema|
  {
    if |schema| == 0 then []
    else ComplexItems(schema[..|schema| - 1]) +
         (if schema[|schema| - 1].ComplexTypeItem? then [schema[|schema| - 1].complexType] else [])
  }

  function SimpleItems(schema: seq<SchemaItem>): (r: seq<XS.SimpleType>)
    ensures |r| <= |schema|
  {
    if |schema| == 0 then []
    else SimpleItems(schema[..|schema| - 1]) +
         (if schema[|schema| - 1].SimpleTypeItem? then [schema[|schema| - 1].simpleType] else [])
  }

  function ImportCount(schema: seq<SchemaItem>): nat {
    |set i | 0 <= i < |schema| && schema[i].ImportItem?|
  }

  /** Every schema item except an import is emitted exactly once. */
  lemma {:induction false} EveryItemEmittedOnce(schema: seq<SchemaItem>)
    ensures |ElementItems(schema)| + |ComplexItems(schema)| + |SimpleItems(schema)| + ImportCount(schema) == |schema|
  {
    if |schema| > 0 {
      var init := schema[..|schema| - 1];
      EveryItemEmittedOnce(init);
      ImportCountLast(schema);
    }
  }

  /** The last item adds one import exactly when it is one. */
  lemma ImportCountLast(schema: seq<SchemaItem>)
    requires |schema| > 0
    ensures ImportCount(schema) == ImportCount(schema[..|schema| - 1]) + if schema[|schema| - 1].ImportItem? then 1 else 0
  {
    var init := schema[..|schema| - 1];
    var before := set i | 0 <= i < |init| && init[i].ImportItem?;
    var after := set i | 0 <= i < |schema| && schema[i].ImportItem?;
    if schema[|schema| - 1].ImportItem? {
      assert after == before + {|schema| - 1};
    } else {
      assert after == before;
    }
  }

  function Map<A, B>(xs: seq<A>, f: A -> B): (r: seq<B>)
    ensures |r| == |xs| && forall i :: 0 <= i < |xs| ==> r[i] == f(xs[i])
  {
    seq(|xs|, i requires 0 <= i < |xs| => f(xs[i]))
  }

  /** `xs.map { f($0, mapping) }`. */
  function MapWith<A, B>(xs: seq<A>, f: (A, TypeMapping) -> B, mapping: TypeMapping): (r: seq<B>)
    ensures |r| == |xs| && forall i :: 0 <= i < |xs| ==> r[i] == f(xs[i], mapping)
  {
    seq(|xs|, i requires 0 <= i < |xs| => f(xs[i], mapping))
  }

  /** Mapping one more item appends its image. */
  lemma MapWithSnoc<A, B>(xs: seq<A>, x: A, f: (A, TypeMapping) -> B, mapping: TypeMapping)
    ensures MapWith(xs + [x], f, mapping) == MapWith(xs, f, mapping) + [f(x, mapping)]
  {
    var l, r := MapWith(xs + [x], f, mapping), MapWith(xs, f, mapping) + [f(x, mapping)];
    assert |l| == |r|;
    forall i | 0 <= i < |l| ensures l[i] == r[i] {
      if i < |xs| {
        assert (xs + [x])[i] == xs[i];
      }
    }
  }

  /** The three emission loops: the types in the order the generated file lists them, all elements
      first, then the complex types, then the simple types, each converted with the final mapping. */
  function EmittedTypes<M>(schema: seq<SchemaItem>, mapping: TypeMapping, fromElement: (XE.Element, TypeMapping) -> M,
                           fromComplex: (XE.Complex, TypeMapping) -> M, fromSimple: (XS.SimpleType, TypeMapping) -> M)
    : (r: seq<M>)
    ensures |r| + ImportCount(schema) == |schema|
  {
    EveryItemEmittedOnce(schema);
    MapWith(ElementItems(schema), fromElement, mapping) + MapWith(ComplexItems(schema), fromComplex, mapping)
      + MapWith(SimpleItems(schema), fromSimple, mapping)
  }

  /** The three loops of `generate` that append to `types`. */
  method EmitTypes<M>(schema: seq<SchemaItem>, mapping: TypeMapping, fromElement: (XE.Element, TypeMapping) -> M,
                      fromComplex: (XE.Complex, TypeMapping) -> M, fromSimple: (XS.SimpleType, TypeMapping) -> M)
    returns (types: seq<M>)
    ensures types == EmittedTypes(schema, mapping, fromElement, fromComplex, fromSimple)
  {
    var elements := EmitElements(schema, mapping, fromElement);
    var complexTypes := EmitComplexTypes(schema, mapping, fromComplex);
    var simpleTypes := EmitSimpleTypes(schema, mapping, fromSimple);
    types := elements + complexTypes + simpleTypes;
  }

  /** The loop over the elements of the schema. */
  method EmitElements<M>(schema: seq<SchemaItem>, mapping: TypeMapping, fromElement: (XE.Element, TypeMapping) -> M)
    returns (types: seq<M>)
    ensures types == MapWith(ElementItems(schema), fromElement, mapping)
  {
    types := [];
    for i := 0 to |schema|
      invariant types == MapWith(ElementItems(schema[..i]), fromElement, mapping)
    {
      assert schema[..i + 1][..i] == schema[..i];
      if schema[i].ElementItem? {
        MapWithSnoc(ElementItems(schema[..i]), schema[i].element, fromElement, mapping);
        types := types + [fromElement(schema[i].element, mapping)];
      }
    }
    assert schema[..|schema|] == schema;
  }

  /** The loop over the complex types of the schema. */
  method EmitComplexTypes<M>(schema: seq<SchemaItem>, mapping: TypeMapping, fromComplex: (XE.Complex, TypeMapping) -> M)
    returns (types: seq<M>)
    ensures types == MapWith(ComplexItems(schema), fromComplex, mapping)
  {
    types := [];
    for i := 0 to |schema|
      invariant types == MapWith(ComplexItems(schema[..i]), fromComplex, mapping)
    {
      assert schema[..i + 1][..i] == schema[..i];
      if schema[i].ComplexTypeItem? {
        MapWithSnoc(ComplexItems(schema[..i]), schema[i].complexType, fromComplex, mapping);
        types := types + [fromComplex(schema[i].complexType, mapping)];
      }
    }
    assert schema[..|schema|] == schema;
  }

  /** The loop over the simple types of the schema. */
  method EmitSimpleTypes<M>(schema: seq<SchemaItem>, mapping: TypeMapping, fromSimple: (XS.SimpleType, TypeMapping) -> M)
    returns (types: seq<M>)
    ensures types == MapWith(SimpleItems(schema), fromSimple, mapping)
  {
    types := [];
    for i := 0 to |schema|
      invariant types == MapWith(SimpleItems(schema[..i]), fromSimple, mapping)
    {
      assert schema[..i + 1][..i] == schema[..i];
      if schema[i].SimpleTypeItem? {
        MapWithSnoc(SimpleItems(schema[..i]), schema[i].simpleType, fromSimple, mapping);
        types := types + [fromSimple(schema[i].simpleType, mapping)];
      }
    }
    assert schema[..|schema|] == schema;
  }

  /** `for service in wsdl.services { clients.append(…) }`. */
  method EmitClients<C>(services: seq<WSD.Service>, client: WSD.Service -> C) returns (clients: seq<C>)
    ensures clients == Map(services, client)
  {
    clients := [];
    for i := 0 to |services|
      invariant |clients| == i
      invariant forall k :: 0 <= k < i ==> clients[k] == client(services[k])
    {
      clients := clients + [client(services[i])];
    }
  }

  // ---------------------------------------------------------------- generate

  datatype Output<M, C> = Output(types: seq<M>, clients: seq<C>)

  /** What the naming loops need of the connected nodes: a set walked once, and no two element
      names alike (else `fatalError`). */
  predicate Nameable(nodes: seq<Node>, toSwiftTypeName: string -> string) {
    NoDuplicates(nodes) && ElementNamesUnique(ElementsOf(nodes), toSwiftTypeName)
  }

  /** `generate`: the graph's error, or the emitted types (each converted with the final mapping)
      and one client per service. */
  function Generation<M, C>(d: Definitions, services: seq<WSD.Service>, connectedNodes: Graphs.Graph -> seq<Node>,
                            toSwiftTypeName: string -> string,
                            fromElement: (XE.Element, TypeMapping) -> M, fromComplex: (XE.Complex, TypeMapping) -> M,
                            fromSimple: (XS.SimpleType, TypeMapping) -> M, client: WSD.Service -> C)
    : (r: Result<Output<M, C>, Graphs.GeneratorError>)
    requires SchemaWellFormed(d)
    requires Graphs.Build(d).Ok? ==> Nameable(connectedNodes(Graphs.Build(d).value), toSwiftTypeName)
    ensures Graphs.Build(d).Err? <==> r.Err?
    ensures r.Err? ==> r.error == Graphs.Build(d).error
    ensures r.Ok? ==> |r.value.types| + ImportCount(d.schema) == |d.schema| && |r.value.clients| == |services|
  {
    match Graphs.Build(d)
    case Err(e) => Err(e)
    case Ok(graph) =>
      var mapping := Naming(Seed(BaseTypes.Table), connectedNodes(graph), toSwiftTypeName);
      Ok(Output(EmittedTypes(d.schema, mapping, fromElement, fromComplex, fromSimple), Map(services, client)))
  }

  method Generate<M, C>(d: Definitions, services: seq<WSD.Service>, connectedNodes: Graphs.Graph -> seq<Node>,
                        toSwiftTypeName: string -> string,
                        fromElement: (XE.Element, TypeMapping) -> M, fromComplex: (XE.Complex, TypeMapping) -> M,
                        fromSimple: (XS.SimpleType, TypeMapping) -> M, client: WSD.Service -> C)
    returns (r: Result<Output<M, C>, Graphs.GeneratorError>)
    requires SchemaWellFormed(d)
    requires Graphs.Build(d).Ok? ==> Nameable(connectedNodes(Graphs.Build(d).value), toSwiftTypeName)
    ensures r == Generation(d, services, connectedNodes, toSwiftTypeName, fromElement, fromComplex, fromSimple, client)
  {
    var built := Graphs.Init(d);
    if built.Err? {
      return Err(built.error);
    }
    var graph := built.value;
    var mapping, scope := AssignNames(Seed(BaseTypes.Table), connectedNodes(graph), toSwiftTypeName);
    var types := EmitTypes(d.schema, mapping, fromElement, fromComplex, fromSimple);
    var clients := EmitClients(services, client);
    r := Ok(Output(types, clients));
  }
}
