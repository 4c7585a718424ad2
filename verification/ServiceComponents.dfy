/** The components embedded in a service, their dependencies, and the edits of both.

    Fields hold texts or other values. A document is accepted when the ids of its components are
    valid and distinct and its dependencies are distinct edges between two different components. */
module ServiceComponents {
  import opened Wrappers
  import opened Ordering
  import opened Texts

  datatype Value = Text(text: string) | NotText(token: int)

  function TextOf(v: Option<Value>): Option<string> {
    if v.Some? && v.value.Text? then Some(v.value.text) else None
  }

  /** One component; `rest` holds any further keys. */
  datatype Item = Item(id: Option<Value>, name: Option<Value>, role: Option<Value>, description: Option<Value>,
                       rest: map<string, Value>)

  datatype Dependency = Dependency(componentId: Option<Value>, dependsOn: Option<Value>, description: Option<Value>,
                                   rest: map<string, Value>)

  /** An element of a list: a mapping, or anything else. */
  datatype Element<T> = Mapping(doc: T) | NotMapping(token: int)

  datatype Field<T> = Missing | NotList | Elements(list: seq<Element<T>>)

  /** `data.components`: absent or null, not a mapping, or a document. */
  datatype Components = Absent | NotDocument | Document(items: Field<Item>, dependencies: Field<Dependency>)

  type Pair = (string, string)

  /** `^[a-z0-9](?:[a-z0-9_-]{0,62}[a-z0-9])?$`. */
  predicate IsLocalId(s: string) {
    && 1 <= |s| <= 64 && IsIdentifierHead(s[0]) && IsIdentifierHead(s[|s| - 1])
    && forall c | c in s :: IsIdentifierChar(c)
  }

  lemma LocalIdIsStripped(s: string)
    requires IsLocalId(s)
    ensures Strip(s) == s
  {
    assert !IsSpace(s[0]) && !IsSpace(s[|s| - 1]);
  }

  function IdText(e: Element<Item>): Option<string> {
    if e.Mapping? then TextOf(e.doc.id) else None
  }

  /** The two ends of a dependency, when both are texts. */
  function EdgeText(e: Element<Dependency>): Option<Pair> {
    if e.Mapping? && TextOf(e.doc.componentId).Some? && TextOf(e.doc.dependsOn).Some? then
      Some((TextOf(e.doc.componentId).value, TextOf(e.doc.dependsOn).value))
    else None
  }

  function Only<T>(x: Option<T>): seq<T> {
    if x.Some? then [x.value] else []
  }

  function IdOf(): Element<Item> -> seq<string> {
    (e: Element<Item>) => Only(IdText(e))
  }

  function PairOf(): Element<Dependency> -> seq<Pair> {
    (e: Element<Dependency>) => Only(EdgeText(e))
  }

  function Ids(items: seq<Element<Item>>): seq<string> {
    FlatMap(IdOf(), items)
  }

  function Pairs(dependencies: seq<Element<Dependency>>): seq<Pair> {
    FlatMap(PairOf(), dependencies)
  }

  /** The graph of the document is one of distinct edges between distinct, valid components. */
  ghost predicate IsGraph(ids: seq<string>, pairs: seq<Pair>) {
    && (forall x | x in ids :: IsLocalId(x)) && Distinct(ids)
    && (forall p | p in pairs :: p.0 != p.1 && p.0 in ids && p.1 in ids) && Distinct(pairs)
  }

  ghost predicate IsAccepted(doc: Components) {
    match doc
    case Document(Missing, _) => false
    case Document(_, Missing) => false
    case Document(Elements(items), Elements(dependencies)) => IsGraph(Ids(items), Pairs(dependencies))
    case _ => true
  }

  // The validator.

  datatype End = ComponentId | DependsOn

  datatype Violation =
    | MissingItems | MissingDependencies | BadId(index: nat) | RepeatedId(index: nat) | BadEndpoint(index: nat, end: End)
    | SelfReference(index: nat) | UnknownEndpoint(index: nat, end: End) | RepeatedPair(index: nat)

  function EndOf(p: Pair, end: End): string {
    if end == ComponentId then p.0 else p.1
  }

  predicate IdAt(doc: Components, i: nat) {
    doc.Document? && doc.items.Elements? && i < |doc.items.list| && IdText(doc.items.list[i]).Some?
  }

  predicate EdgeAt(doc: Components, i: nat) {
    doc.Document? && doc.dependencies.Elements? && i < |doc.dependencies.list| && EdgeText(doc.dependencies.list[i]).Some?
  }

  function Edge(doc: Components, i: nat): Pair
    requires EdgeAt(doc, i)
  {
    EdgeText(doc.dependencies.list[i]).value
  }

  /** The violation is at a real place of the document. */
  ghost predicate Violates(doc: Components, v: Violation) {
    match v
    case MissingItems => doc.Document? && doc.items.Missing?
    case MissingDependencies => doc.Document? && doc.dependencies.Missing?
    case BadId(i) => IdAt(doc, i) && !IsLocalId(IdText(doc.items.list[i]).value)
    case RepeatedId(i) => IdAt(doc, i) && IdText(doc.items.list[i]).value in Ids(doc.items.list[..i])
    case BadEndpoint(i, end) => EdgeAt(doc, i) && !IsLocalId(EndOf(Edge(doc, i), end))
    case SelfReference(i) => EdgeAt(doc, i) && Edge(doc, i).0 == Edge(doc, i).1
    case UnknownEndpoint(i, end) => EdgeAt(doc, i) && doc.items.Elements? && EndOf(Edge(doc, i), end) !in Ids(doc.items.list)
    case RepeatedPair(i) => EdgeAt(doc, i) && Edge(doc, i) in Pairs(doc.dependencies.list[..i])
  }

  lemma NoRepeatSnoc<T>(s: seq<T>, x: T)
    ensures Distinct(s + [x]) <==> Distinct(s) && x !in s
  {
    var all := s + [x];
    if Distinct(all) {
      forall i, j | 0 <= i < j < |s| ensures s[i] != s[j] {
        assert all[i] != all[j];
      }
      forall i | 0 <= i < |s| ensures s[i] != x {
        assert all[i] != all[|s|];
      }
    }
  }

  lemma NoRepeatPrefix<T>(s: seq<T>, r: seq<T>)
    requires s <= r && Distinct(r)
    ensures Distinct(s)
  {
    forall i, j | 0 <= i < j < |s| ensures s[i] != s[j] {
      assert r[i] != r[j];
    }
  }

  /** The items part of the validator. */
  method CheckItems(items: seq<Element<Item>>) returns (v: Option<Violation>, componentIds: set<string>)
    ensures v == None <==> (forall x | x in Ids(items) :: IsLocalId(x)) && Distinct(Ids(items))
    ensures v == None ==> forall x :: x in componentIds <==> x in Ids(items)
    ensures v.Some? ==> Violates(Document(Elements(items), Elements([])), v.value)
  {
    hide IsLocalId, FlatMap;
    componentIds := {};
    FlatMapEmpty(IdOf(), items);
    for index := 0 to |items|
      invariant (forall x | x in Ids(items[..index]) :: IsLocalId(x)) && Distinct(Ids(items[..index]))
      invariant forall x :: x in componentIds <==> x in Ids(items[..index])
    {
      FlatMapSnoc(IdOf(), items, index);
      FlatMapPrefix(IdOf(), items, index + 1);
      var id := IdText(items[index]);
      if id.Some? {
        NoRepeatSnoc(Ids(items[..index]), id.value);
        assert Ids(items[..index + 1]) == Ids(items[..index]) + [id.value];
        if !IsLocalId(id.value) {
          assert id.value in Ids(items[..index + 1]) && id.value in Ids(items);
          return Some(BadId(index)), componentIds;
        }
        if id.value in componentIds {
          if Distinct(Ids(items)) {
            NoRepeatPrefix(Ids(items[..index + 1]), Ids(items));
          }
          return Some(RepeatedId(index)), componentIds;
        }
        componentIds := componentIds + {id.value};
      } else {
        assert Ids(items[..index + 1]) == Ids(items[..index]);
      }
    }
    assert items[..|items|] == items;
    v := None;
  }

  predicate IsEdge(p: Pair, ids: set<string>) {
    p.0 != p.1 && p.0 in ids && p.1 in ids
  }

  /** The dependencies part of the validator, over valid component ids. */
  method CheckDependencies(items: seq<Element<Item>>, dependencies: seq<Element<Dependency>>, componentIds: set<string>) returns (v: Option<Violation>)
    requires forall x :: x in componentIds <==> x in Ids(items)
    requires forall x | x in componentIds :: IsLocalId(x)
    ensures v == None <==> (forall p | p in Pairs(dependencies) :: IsEdge(p, componentIds)) && Distinct(Pairs(dependencies))
    ensures v.Some? ==> Violates(Document(Elements(items), Elements(dependencies)), v.value)
  {
    hide IsLocalId, FlatMap;
    var pairs: set<Pair> := {};
    FlatMapEmpty(PairOf(), dependencies);
    for index := 0 to |dependencies|
      invariant (forall p | p in Pairs(dependencies[..index]) :: IsEdge(p, componentIds)) && Distinct(Pairs(dependencies[..index]))
      invariant forall p :: p in pairs <==> p in Pairs(dependencies[..index])
    {
      FlatMapSnoc(PairOf(), dependencies, index);
      FlatMapPrefix(PairOf(), dependencies, index + 1);
      var edge := EdgeText(dependencies[index]);
      if edge.Some? {
        var pair := edge.value;
        var fault := CheckEdge(pair, index, componentIds, pairs);
        assert Pairs(dependencies[..index + 1]) == Pairs(dependencies[..index]) + [pair];
        NoRepeatSnoc(Pairs(dependencies[..index]), pair);
        if fault.Some? {
          assert pair in Pairs(dependencies[..index + 1]) && pair in Pairs(dependencies);
          if Distinct(Pairs(dependencies)) {
            NoRepeatPrefix(Pairs(dependencies[..index + 1]), Pairs(dependencies));
          }
          return fault;
        }
        pairs := pairs + {pair};
      } else {
        assert Pairs(dependencies[..index + 1]) == Pairs(dependencies[..index]);
      }
    }
    assert dependencies[..|dependencies|] == dependencies;
    v := None;
  }

  /** The checks of one edge, in order. */
  method CheckEdge(pair: Pair, index: nat, componentIds: set<string>, pairs: set<Pair>) returns (v: Option<Violation>)
    requires forall x | x in componentIds :: IsLocalId(x)
    ensures v == None <==> IsEdge(pair, componentIds) && pair !in pairs
    ensures v.Some? ==>
              || (v.value == BadEndpoint(index, ComponentId) && !IsLocalId(pair.0))
              || (v.value == BadEndpoint(index, DependsOn) && !IsLocalId(pair.1))
              || (v.value == SelfReference(index) && pair.0 == pair.1)
              || (v.value == UnknownEndpoint(index, ComponentId) && pair.0 !in componentIds)
              || (v.value == UnknownEndpoint(index, DependsOn) && pair.1 !in componentIds)
              || (v.value == RepeatedPair(index) && pair in pairs)
  {
    if !IsLocalId(pair.0) {
      return Some(BadEndpoint(index, ComponentId));
    }
    if !IsLocalId(pair.1) {
      return Some(BadEndpoint(index, DependsOn));
    }
    if pair.0 == pair.1 {
      return Some(SelfReference(index));
    }
    if pair.0 !in componentIds {
      return Some(UnknownEndpoint(index, ComponentId));
    }
    if pair.1 !in componentIds {
      return Some(UnknownEndpoint(index, DependsOn));
    }
    if pair in pairs {
      return Some(RepeatedPair(index));
    }
    return None;
  }

  /** `service_component_violations`: none exactly for an accepted document, and else one that is there. */
  method FindViolation(doc: Components) returns (v: Option<Violation>)
    ensures v == None <==> IsAccepted(doc)
    ensures v.Some? ==> Violates(doc, v.value)
  {
    hide IsLocalId, FlatMap;
    match doc {
      case Document(Missing, _) => return Some(MissingItems);
      case Document(_, Missing) => return Some(MissingDependencies);
      case Document(Elements(items), Elements(dependencies)) =>
        var fault, componentIds := CheckItems(items);
        if fault.Some? {
          return fault;
        }
        v := CheckDependencies(items, dependencies, componentIds);
      case _ => return None;
    }
  }

  lemma SetForgetsOrder<T>(s: seq<T>, r: seq<T>)
    requires multiset(s) == multiset(r)
    ensures forall x :: x in s <==> x in r
    ensures Distinct(s) ==> Distinct(r)
  {
    MultisetMembers(s, r);
    if Distinct(s) {
      forall i, j | 0 <= i < j < |r| ensures r[i] != r[j] {
        if r[i] == r[j] {
          NoRepeats(s, r[i]);
          RepeatCounts(r, i, j);
        }
      }
    }
  }

  lemma GraphForgetsOrder(ids: seq<string>, pairs: seq<Pair>, ids': seq<string>, pairs': seq<Pair>)
    requires multiset(ids) == multiset(ids') && multiset(pairs) == multiset(pairs')
    ensures IsGraph(ids, pairs) <==> IsGraph(ids', pairs')
  {
    hide IsLocalId, Distinct;
    SetForgetsOrder(ids, ids');
    SetForgetsOrder(ids', ids);
    SetForgetsOrder(pairs, pairs');
    SetForgetsOrder(pairs', pairs);
  }

  /** Acceptance does not depend on the order of components or of dependencies. */
  lemma AcceptanceForgetsOrder(items: seq<Element<Item>>, dependencies: seq<Element<Dependency>>, items': seq<Element<Item>>, dependencies': seq<Element<Dependency>>)
    requires multiset(items) == multiset(items') && multiset(dependencies) == multiset(dependencies')
    ensures IsAccepted(Document(Elements(items), Elements(dependencies)))
            <==> IsAccepted(Document(Elements(items'), Elements(dependencies')))
  {
    hide IsGraph;
    FlatMapKeepsMultisets(IdOf(), items, items');
    FlatMapKeepsMultisets(PairOf(), dependencies, dependencies');
    GraphForgetsOrder(Ids(items), Pairs(dependencies), Ids(items'), Pairs(dependencies'));
  }
}
