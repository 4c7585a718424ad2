/** Normalization of component documents, and the four edits. */
module ComponentEdits {
  import opened Wrappers
  import opened Ordering
  import opened Texts
  import opened ServiceComponents

  datatype EditError = InvalidDocument | NoSuchComponent | NoSuchDependency

  // Normalization.

  /** `str(value)` of a value under a key that may be missing, given `str` of values that are no texts. */
  function Shown(v: Option<Value>, show: int -> string): string {
    match v
    case None => ""
    case Some(Text(text)) => text
    case Some(NotText(token)) => show(token)
  }

  function ItemKey(show: int -> string): Element<Item> -> Key {
    (e: Element<Item>) =>
      if e.Mapping? then [Shown(e.doc.id, show), Shown(e.doc.name, show), Shown(e.doc.role, show), Shown(e.doc.description, show)]
      else []
  }

  function DependencyKey(show: int -> string): Element<Dependency> -> Key {
    (e: Element<Dependency>) =>
      if e.Mapping? then [Shown(e.doc.componentId, show), Shown(e.doc.dependsOn, show), Shown(e.doc.description, show)]
      else []
  }

  function StripValue(v: Option<Value>): Option<Value> {
    if TextOf(v).Some? then Some(Text(Strip(TextOf(v).value))) else v
  }

  function StripItem(): Element<Item> -> Element<Item> {
    (e: Element<Item>) =>
      if e.Mapping? then
        Mapping(e.doc.(id := StripValue(e.doc.id), name := StripValue(e.doc.name), description := StripValue(e.doc.description)))
      else e
  }

  function StripDependency(): Element<Dependency> -> Element<Dependency> {
    (e: Element<Dependency>) =>
      if e.Mapping? then
        Mapping(e.doc.(componentId := StripValue(e.doc.componentId), dependsOn := StripValue(e.doc.dependsOn),
                       description := StripValue(e.doc.description)))
      else e
  }

  predicate AllMappings<T>(list: seq<Element<T>>) {
    forall i | 0 <= i < |list| :: list[i].Mapping?
  }

  /** A list with its texts stripped, sorted when every element is a mapping. */
  function NormalizeList<T>(list: seq<Element<T>>, strip: Element<T> -> Element<T>, key: Element<T> -> Key): seq<Element<T>> {
    if AllMappings(list) then SortBy(key, Map(strip, list)) else Map(strip, list)
  }

  function NormalizeField<T>(f: Field<T>, strip: Element<T> -> Element<T>, key: Element<T> -> Key): Field<T> {
    if f.Elements? then Elements(NormalizeList(f.list, strip, key)) else f
  }

  /** `normalize_service_components`. */
  function Normalize(doc: Components, show: int -> string): Components {
    if doc.Document? then
      Document(NormalizeField(doc.items, StripItem(), ItemKey(show)),
               NormalizeField(doc.dependencies, StripDependency(), DependencyKey(show)))
    else doc
  }

  // What normalization does to the graph.

  function StripText(): string -> string {
    (s: string) => Strip(s)
  }

  function StripPair(): Pair -> Pair {
    (p: Pair) => (Strip(p.0), Strip(p.1))
  }

  lemma {:induction false} FlatMapOfMap<T, U>(g: T -> seq<U>, h: T -> T, f: U -> U, s: seq<T>)
    requires forall e | e in s :: g(h(e)) == Map(f, g(e))
    ensures FlatMap(g, Map(h, s)) == Map(f, FlatMap(g, s))
  {
    if s != [] {
      var front, last := s[..|s| - 1], s[|s| - 1];
      assert s == front + [last];
      FlatMapOfMap(g, h, f, front);
      assert Map(h, s)[..|s| - 1] == Map(h, front);
      MapJoin(f, FlatMap(g, front), g(last));
    }
  }

  lemma NormalizedIds(list: seq<Element<Item>>, key: Element<Item> -> Key)
    ensures multiset(Ids(NormalizeList(list, StripItem(), key))) == multiset(Map(StripText(), Ids(list)))
  {
    hide FlatMap, Strip;
    FlatMapOfMap(IdOf(), StripItem(), StripText(), list);
    FlatMapKeepsMultisets(IdOf(), NormalizeList(list, StripItem(), key), Map(StripItem(), list));
  }

  lemma NormalizedPairs(list: seq<Element<Dependency>>, key: Element<Dependency> -> Key)
    ensures multiset(Pairs(NormalizeList(list, StripDependency(), key))) == multiset(Map(StripPair(), Pairs(list)))
  {
    hide FlatMap, Strip;
    FlatMapOfMap(PairOf(), StripDependency(), StripPair(), list);
    FlatMapKeepsMultisets(PairOf(), NormalizeList(list, StripDependency(), key), Map(StripDependency(), list));
  }

  /** A normalized document is accepted exactly when its stripped graph is one. */
  lemma NormalizedIsGraph(items: seq<Element<Item>>, dependencies: seq<Element<Dependency>>, show: int -> string)
    ensures IsAccepted(Normalize(Document(Elements(items), Elements(dependencies)), show))
            <==> IsGraph(Map(StripText(), Ids(items)), Map(StripPair(), Pairs(dependencies)))
  {
    hide IsGraph, NormalizeList, Map, FlatMap;
    var i, d := NormalizeList(items, StripItem(), ItemKey(show)), NormalizeList(dependencies, StripDependency(), DependencyKey(show));
    NormalizedIds(items, ItemKey(show));
    NormalizedPairs(dependencies, DependencyKey(show));
    GraphForgetsOrder(Ids(i), Pairs(d), Map(StripText(), Ids(items)), Map(StripPair(), Pairs(dependencies)));
  }

  lemma {:induction false} SortOfSorted<T>(key: T -> Key, s: seq<T>)
    requires SortedBy(key, s)
    ensures SortBy(key, s) == s
  {
    if s != [] {
      SortOfSorted(key, s[1..]);
      assert s == [s[0]] + s[1..];
    }
  }

  lemma StripValueAgain(v: Option<Value>)
    ensures StripValue(StripValue(v)) == StripValue(v)
  {
    hide Strip;
    if TextOf(v).Some? {
      StripAgain(TextOf(v).value);
    }
  }

  lemma StrippedAgain()
    ensures forall e :: StripItem()(StripItem()(e)) == StripItem()(e) && StripItem()(e).Mapping? == e.Mapping?
    ensures forall e :: StripDependency()(StripDependency()(e)) == StripDependency()(e) && StripDependency()(e).Mapping? == e.Mapping?
  {
    hide StripValue;
    forall v { StripValueAgain(v); }
  }

  lemma StrippedList<T>(list: seq<Element<T>>, strip: Element<T> -> Element<T>, key: Element<T> -> Key)
    requires forall e :: strip(strip(e)) == strip(e) && strip(e).Mapping? == e.Mapping?
    ensures var r := NormalizeList(list, strip, key); Map(strip, r) == r && AllMappings(r) == AllMappings(list)
  {
    hide KeyLe;
    var r, m := NormalizeList(list, strip, key), Map(strip, list);
    assert multiset(r) == multiset(m);
    forall e | e in r ensures strip(e) == e && (AllMappings(list) ==> e.Mapping?) {
      assert e in multiset(r) && e in multiset(m);
      var i :| 0 <= i < |list| && m[i] == e;
      assert e == strip(list[i]);
    }
    assert forall i | 0 <= i < |r| :: r[i] in r;
    if !AllMappings(list) {
      var i :| 0 <= i < |list| && !list[i].Mapping?;
      assert !r[i].Mapping?;
    }
  }

  lemma NormalizeListAgain<T>(list: seq<Element<T>>, strip: Element<T> -> Element<T>, key: Element<T> -> Key)
    requires forall e :: strip(strip(e)) == strip(e) && strip(e).Mapping? == e.Mapping?
    ensures NormalizeList(NormalizeList(list, strip, key), strip, key) == NormalizeList(list, strip, key)
  {
    hide KeyLe, AllMappings, Map;
    var r := NormalizeList(list, strip, key);
    StrippedList(list, strip, key);
    if AllMappings(list) {
      SortByIsSorted(key, Map(strip, list));
      SortOfSorted(key, r);
    }
  }

  /** Normalization is idempotent. */
  lemma NormalizeAgain(doc: Components, show: int -> string)
    ensures Normalize(Normalize(doc, show), show) == Normalize(doc, show)
  {
    hide NormalizeList, StripItem, StripDependency, ItemKey, DependencyKey;
    StrippedAgain();
    if doc.Document? {
      if doc.items.Elements? {
        NormalizeListAgain(doc.items.list, StripItem(), ItemKey(show));
      }
      if doc.dependencies.Elements? {
        NormalizeListAgain(doc.dependencies.list, StripDependency(), DependencyKey(show));
      }
    }
  }

  // The edits.

  datatype Lists = Lists(items: seq<Element<Item>>, dependencies: seq<Element<Dependency>>)

  /** `_editable_document`. */
  function Editable(doc: Components): Result<Lists, EditError> {
    match doc
    case Absent => Ok(Lists([], []))
    case Document(Elements(items), Elements(dependencies)) =>
      if AllMappings(items) && AllMappings(dependencies) then Ok(Lists(items, dependencies)) else Err(InvalidDocument)
    case _ => Err(InvalidDocument)
  }

  function Written(lists: Lists, show: int -> string): Components {
    Normalize(Document(Elements(lists.items), Elements(lists.dependencies)), show)
  }

  /** The position of the first element for which `holds`. */
  function Find<T>(holds: T -> bool, s: seq<T>): (r: Option<nat>)
    ensures r.Some? ==> r.value < |s| && holds(s[r.value]) && forall i | 0 <= i < r.value :: !holds(s[i])
    ensures r == None ==> forall i | 0 <= i < |s| :: !holds(s[i])
  {
    if s == [] then None
    else if holds(s[0]) then Some(0)
    else
      match Find(holds, s[1..])
      case None => None
      case Some(i) => Some(i + 1)
  }

  function Filter<T>(keep: T -> bool, s: seq<T>): seq<T> {
    if s == [] then [] else Filter(keep, s[..|s| - 1]) + if keep(s[|s| - 1]) then [s[|s| - 1]] else []
  }

  function HasId(id: string): Element<Item> -> bool {
    (e: Element<Item>) => IdText(e) == Some(id)
  }

  function HasEdge(p: Pair): Element<Dependency> -> bool {
    (e: Element<Dependency>) => EdgeText(e) == Some(p)
  }

  /** Replaces the element found, or appends. */
  function Put<T>(s: seq<T>, at: Option<nat>, x: T): seq<T>
    requires at.Some? ==> at.value < |s|
  {
    if at.Some? then s[at.value := x] else s + [x]
  }

  function RenameValue(v: Option<Value>, from: string, to: string): Option<Value> {
    if TextOf(v) == Some(from) then Some(Text(to)) else v
  }

  function RenameEnds(from: string, to: string): Element<Dependency> -> Element<Dependency> {
    (e: Element<Dependency>) =>
      if e.Mapping? then
        Mapping(e.doc.(componentId := RenameValue(e.doc.componentId, from, to), dependsOn := RenameValue(e.doc.dependsOn, from, to)))
      else e
  }

  /** The id of the component an edit is about; an empty previous id counts as none. */
  function Sought(id: string, previous: Option<string>): string {
    if previous.Some? && previous.value != "" then previous.value else id
  }

  function NewItem(id: string, name: string, role: string, description: string): Element<Item> {
    Mapping(Item(Some(Text(id)), Some(Text(name)), Some(Text(role)), Some(Text(description)), map[]))
  }

  /** `put_service_component`, before normalization. */
  function PutComponent(lists: Lists, item: Element<Item>, id: string, previous: Option<string>): Result<Lists, EditError> {
    var sought := Sought(id, previous);
    var at := Find(HasId(sought), lists.items);
    if previous.Some? && at == None then Err(NoSuchComponent)
    else
      Ok(Lists(Put(lists.items, at, item),
               if sought != id then Map(RenameEnds(sought, id), lists.dependencies) else lists.dependencies))
  }

  function Misses(id: string): Element<Item> -> bool {
    (e: Element<Item>) => IdText(e) != Some(id)
  }

  function Avoids(id: string): Element<Dependency> -> bool {
    (e: Element<Dependency>) => e.Mapping? && TextOf(e.doc.componentId) != Some(id) && TextOf(e.doc.dependsOn) != Some(id)
  }

  /** `remove_service_component`, before normalization. */
  function RemoveComponent(lists: Lists, id: string): Result<Lists, EditError> {
    if Find(HasId(id), lists.items) == None then Err(NoSuchComponent)
    else Ok(Lists(Filter(Misses(id), lists.items), Filter(Avoids(id), lists.dependencies)))
  }

  function NewDependency(p: Pair, description: Option<string>): Element<Dependency> {
    Mapping(Dependency(Some(Text(p.0)), Some(Text(p.1)),
                       if description.Some? && Strip(description.value) != "" then Some(Text(description.value)) else None, map[]))
  }

  /** `put_service_component_dependency`, before normalization. */
  function PutDependency(lists: Lists, p: Pair, description: Option<string>): Lists {
    lists.(dependencies := Put(lists.dependencies, Find(HasEdge(p), lists.dependencies), NewDependency(p, description)))
  }

  function Differs(p: Pair): Element<Dependency> -> bool {
    (e: Element<Dependency>) => EdgeText(e) != Some(p)
  }

  /** `remove_service_component_dependency`, before normalization. */
  function RemoveDependency(lists: Lists, p: Pair): Result<Lists, EditError> {
    var kept := Filter(Differs(p), lists.dependencies);
    if |kept| == |lists.dependencies| then Err(NoSuchDependency) else Ok(lists.(dependencies := kept))
  }

  // What a put does to the graph.

  function Renamed(x: string, from: string, to: string): string {
    if x == from then to else x
  }

  function RenamePair(from: string, to: string): Pair -> Pair {
    (p: Pair) => (Renamed(p.0, from, to), Renamed(p.1, from, to))
  }

  lemma RenamedEdges(ids: seq<string>, ids': seq<string>, from: string, to: string, pairs: seq<Pair>)
    requires forall p | p in pairs :: p.0 != p.1 && p.0 in ids && p.1 in ids
    requires Distinct(pairs)
    requires forall x | x in ids && x != from :: x in ids' && x != to
    requires to in ids'
    ensures var renamed := Map(RenamePair(from, to), pairs);
            (forall p | p in renamed :: p.0 != p.1 && p.0 in ids' && p.1 in ids') && Distinct(renamed)
  {
    var renamed := Map(RenamePair(from, to), pairs);
    forall p | p in renamed ensures p.0 != p.1 && p.0 in ids' && p.1 in ids' {
      var i :| 0 <= i < |renamed| && renamed[i] == p;
      assert pairs[i] in pairs;
    }
    forall i, j | 0 <= i < j < |renamed| ensures renamed[i] != renamed[j] {
      assert pairs[i] in pairs && pairs[j] in pairs && pairs[i] != pairs[j];
    }
  }

  /** Putting `to` where `from` stood, among the other components. */
  lemma RenamedGraph(a: seq<string>, b: seq<string>, from: string, to: string, found: bool, pairs: seq<Pair>)
    requires IsGraph(if found then a + [from] + b else a + b, pairs)
    requires from !in a + b
    ensures IsGraph(a + [to] + b, Map(RenamePair(from, to), pairs)) <==> IsLocalId(to) && to !in a + b
  {
    hide IsLocalId, Distinct, Map;
    var ids, ids' := if found then a + [from] + b else a + b, a + [to] + b;
    assert forall x :: x in ids' <==> x == to || x in a + b;
    assert forall x :: x in ids <==> (found && x == from) || x in a + b;
    assert to in ids';
    if to in a + b {
      RepeatedInMiddle(a, to, b);
    } else {
      NoRepeatMiddle(a, from, b, found);
      InsertedOnce(a, to, b);
      RenamedEdges(ids, ids', from, to, pairs);
    }
  }

  lemma RepeatedInMiddle<T>(a: seq<T>, x: T, b: seq<T>)
    requires x in a + b
    ensures !Distinct(a + [x] + b)
  {
    var s := a + [x] + b;
    assert s[|a|] == x;
    if x in a {
      var i :| 0 <= i < |a| && a[i] == x;
      assert s[i] == s[|a|];
    } else {
      var i :| 0 <= i < |b| && b[i] == x;
      assert s[|a| + 1 + i] == s[|a|];
    }
  }

  lemma NoRepeatMiddle<T>(a: seq<T>, x: T, b: seq<T>, found: bool)
    requires Distinct(if found then a + [x] + b else a + b)
    ensures Distinct(a + b)
  {
    if found {
      var s, r := a + [x] + b, a + b;
      forall i, j | 0 <= i < j < |r| ensures r[i] != r[j] {
        var k, l := if i < |a| then i else i + 1, if j < |a| then j else j + 1;
        assert s[k] == r[i] && s[l] == r[j];
      }
    }
  }

  lemma InsertedOnce<T>(a: seq<T>, x: T, b: seq<T>)
    requires Distinct(a + b) && x !in a + b
    ensures Distinct(a + [x] + b)
  {
    var s, r := a + [x] + b, a + b;
    forall i, j | 0 <= i < j < |s| ensures s[i] != s[j] {
      if i != |a| && j != |a| {
        var k, l := if i < |a| then i else i - 1, if j < |a| then j else j - 1;
        assert s[i] == r[k] && s[j] == r[l];
      } else if i == |a| {
        assert s[j] == r[j - 1] && r[j - 1] in r;
      } else {
        assert s[i] == r[i] && r[i] in r;
      }
    }
  }

  lemma FlatMapThree<T, U>(f: T -> seq<U>, a: seq<T>, x: T, b: seq<T>)
    ensures FlatMap(f, a + [x] + b) == FlatMap(f, a) + f(x) + FlatMap(f, b)
  {
    hide FlatMap;
    FlatMapJoin(f, a + [x], b);
    FlatMapAppend(f, a, x);
  }

  lemma FlatMapSplit<T, U>(f: T -> seq<U>, s: seq<T>, m: nat)
    requires m < |s|
    ensures FlatMap(f, s) == FlatMap(f, s[..m]) + f(s[m]) + FlatMap(f, s[m + 1..])
  {
    hide FlatMap;
    FlatMapThree(f, s[..m], s[m], s[m + 1..]);
    Parts(s, m);
  }

  lemma Parts<T>(s: seq<T>, m: nat)
    requires m < |s|
    ensures s == s[..m] + [s[m]] + s[m + 1..]
  {
  }

  /** The list with the element put at its place or at the end, as the parts around it. */
  lemma PutParts<T, U>(f: T -> seq<U>, s: seq<T>, at: Option<nat>, x: T) returns (a: seq<U>, b: seq<U>)
    requires at.Some? ==> at.value < |s|
    ensures FlatMap(f, Put(s, at, x)) == a + f(x) + b
    ensures FlatMap(f, s) == if at.Some? then a + f(s[at.value]) + b else a + b
  {
    hide FlatMap;
    if at.Some? {
      var m := at.value;
      a, b := FlatMap(f, s[..m]), FlatMap(f, s[m + 1..]);
      FlatMapSplit(f, s, m);
      FlatMapSplit(f, s[m := x], m);
      assert s[m := x][..m] == s[..m] && s[m := x][m + 1..] == s[m + 1..];
    } else {
      a, b := FlatMap(f, s), [];
      FlatMapAppend(f, s, x);
    }
  }

  lemma {:induction false} MemberOfIds(items: seq<Element<Item>>, x: string)
    ensures x in Ids(items) <==> exists i | 0 <= i < |items| :: HasId(x)(items[i])
  {
    FlatMapMember(IdOf(), items, x);
    if i :| 0 <= i < |items| && HasId(x)(items[i]) {
      assert items[i] in items && x in IdOf()(items[i]);
    }
    if e :| e in items && x in IdOf()(e) {
      var i :| 0 <= i < |items| && items[i] == e;
      assert HasId(x)(items[i]);
    }
  }

  lemma StripsToSelf(s: seq<string>)
    requires forall x | x in s :: IsLocalId(x)
    ensures Map(StripText(), s) == s
  {
    hide IsLocalId, Strip;
    forall i | 0 <= i < |s| ensures Strip(s[i]) == s[i] {
      assert s[i] in s;
      LocalIdIsStripped(s[i]);
    }
  }

  lemma RenamedEnds(dependencies: seq<Element<Dependency>>, from: string, to: string)
    ensures Pairs(Map(RenameEnds(from, to), dependencies)) == Map(RenamePair(from, to), Pairs(dependencies))
  {
    hide FlatMap;
    FlatMapOfMap(PairOf(), RenameEnds(from, to), RenamePair(from, to), dependencies);
  }

  /** Renaming an end and then stripping is renaming to the stripped id. */
  lemma RenameThenStrip(ids: seq<string>, pairs: seq<Pair>, from: string, to: string)
    requires IsGraph(ids, pairs)
    ensures Map(StripPair(), Map(RenamePair(from, to), pairs)) == Map(RenamePair(from, Strip(to)), pairs)
  {
    hide IsLocalId, Strip, Distinct;
    forall i | 0 <= i < |pairs|
      ensures Map(StripPair(), Map(RenamePair(from, to), pairs))[i] == Map(RenamePair(from, Strip(to)), pairs)[i]
    {
      assert pairs[i] in pairs;
      LocalIdIsStripped(pairs[i].0);
      LocalIdIsStripped(pairs[i].1);
    }
  }

  /** The edges after a put: those before, renamed to the stripped id. */
  lemma PutPairs(lists: Lists, id: string, sought: string)
    requires IsGraph(Ids(lists.items), Pairs(lists.dependencies))
    ensures var d := if sought != id then Map(RenameEnds(sought, id), lists.dependencies) else lists.dependencies;
            Map(StripPair(), Pairs(d)) == Map(RenamePair(sought, Strip(id)), Pairs(lists.dependencies))
  {
    hide Strip, IsGraph, FlatMap;
    var pairs := Pairs(lists.dependencies);
    RenamedEnds(lists.dependencies, sought, id);
    RenameThenStrip(Ids(lists.items), pairs, sought, id);
    assert sought == id ==> Map(RenamePair(sought, id), pairs) == pairs;
  }

  /** What a put leaves as the graph of the stripped document. */
  lemma PutGraph(lists: Lists, item: Element<Item>, id: string, previous: Option<string>) returns (a: seq<string>, b: seq<string>)
    requires IsGraph(Ids(lists.items), Pairs(lists.dependencies)) && IdText(item) == Some(id)
    requires PutComponent(lists, item, id, previous).Ok?
    ensures var sought, r := Sought(id, previous), PutComponent(lists, item, id, previous).value;
            && Ids(lists.items) == (if sought in Ids(lists.items) then a + [sought] + b else a + b) && sought !in a + b
            && Map(StripText(), Ids(r.items)) == a + [Strip(id)] + b
            && Map(StripPair(), Pairs(r.dependencies)) == Map(RenamePair(sought, Strip(id)), Pairs(lists.dependencies))
  {
    hide IsLocalId, Strip, FlatMap, Map, Distinct;
    var sought, ids := Sought(id, previous), Ids(lists.items);
    var at := Find(HasId(sought), lists.items);
    a, b := PutParts(IdOf(), lists.items, at, item);
    MemberOfIds(lists.items, sought);
    if at.Some? && sought in a + b {
      RepeatedInMiddle(a, sought, b);
    }
    assert forall x | x in a + b :: x in ids;
    StrippedPut(a, id, b);
    PutPairs(lists, id, sought);
  }

  lemma StrippedPut(a: seq<string>, id: string, b: seq<string>)
    requires forall x | x in a + b :: IsLocalId(x)
    ensures Map(StripText(), a + [id] + b) == a + [Strip(id)] + b
  {
    hide IsLocalId, Strip;
    StripsToSelf(a);
    StripsToSelf(b);
    MapJoin(StripText(), a + [id], b);
    MapJoin(StripText(), a, [id]);
  }

  /** A put into an accepted document gives an accepted one exactly when the stripped id is valid and
      belongs to no other component. */
  lemma PutComponentIff(lists: Lists, item: Element<Item>, id: string, previous: Option<string>, show: int -> string)
    requires IsGraph(Ids(lists.items), Pairs(lists.dependencies)) && IdText(item) == Some(id)
    requires PutComponent(lists, item, id, previous).Ok?
    ensures IsAccepted(Written(PutComponent(lists, item, id, previous).value, show)) <==>
            && IsLocalId(Strip(id))
            && (Strip(id) in Ids(lists.items) ==> Strip(id) == Sought(id, previous))
  {
    hide IsLocalId, Strip, FlatMap, PutComponent, IsAccepted, IsGraph, Map, Normalize;
    var r := PutComponent(lists, item, id, previous).value;
    var a, b := PutGraph(lists, item, id, previous);
    var sought := Sought(id, previous);
    NormalizedIsGraph(r.items, r.dependencies, show);
    RenamedGraph(a, b, sought, Strip(id), sought in Ids(lists.items), Pairs(lists.dependencies));
    assert forall x :: x in Ids(lists.items) <==> (sought in Ids(lists.items) && x == sought) || x in a + b;
  }

  lemma AcceptedIsGraph(doc: Components)
    requires Editable(doc).Ok? && IsAccepted(doc)
    ensures IsGraph(Ids(Editable(doc).value.items), Pairs(Editable(doc).value.dependencies))
  {
  }

  lemma StripsPairs(ids: seq<string>, pairs: seq<Pair>)
    requires IsGraph(ids, pairs)
    ensures Map(StripPair(), pairs) == pairs && Map(StripText(), ids) == ids
  {
    hide IsLocalId, Strip;
    StripsToSelf(ids);
    forall i | 0 <= i < |pairs| ensures StripPair()(pairs[i]) == pairs[i] {
      assert pairs[i] in pairs;
      LocalIdIsStripped(pairs[i].0);
      LocalIdIsStripped(pairs[i].1);
    }
  }

  lemma MemberOfPairs(dependencies: seq<Element<Dependency>>, p: Pair)
    ensures p in Pairs(dependencies) <==> exists i | 0 <= i < |dependencies| :: HasEdge(p)(dependencies[i])
  {
    FlatMapMember(PairOf(), dependencies, p);
    if i :| 0 <= i < |dependencies| && HasEdge(p)(dependencies[i]) {
      assert dependencies[i] in dependencies && p in PairOf()(dependencies[i]);
    }
    if e :| e in dependencies && p in PairOf()(e) {
      var i :| 0 <= i < |dependencies| && dependencies[i] == e;
      assert HasEdge(p)(dependencies[i]);
    }
  }

  lemma GraphWithEdge(ids: seq<string>, a: seq<Pair>, p: Pair, b: seq<Pair>)
    requires IsGraph(ids, a + b)
    ensures IsGraph(ids, a + [p] + b) <==> p.0 != p.1 && p.0 in ids && p.1 in ids && p !in a + b
  {
    hide IsLocalId, Distinct;
    assert forall q :: q in a + [p] + b <==> q == p || q in a + b;
    if p in a + b {
      RepeatedInMiddle(a, p, b);
    } else {
      InsertedOnce(a, p, b);
    }
  }

  /** A dependency put into an accepted document is accepted exactly when its stripped ends are two
      different components and the stripped edge is new or was named as it is. */
  lemma PutDependencyIff(lists: Lists, p: Pair, description: Option<string>, show: int -> string)
    requires IsGraph(Ids(lists.items), Pairs(lists.dependencies))
    ensures var q := StripPair()(p);
            IsAccepted(Written(PutDependency(lists, p, description), show)) <==>
            && q.0 != q.1 && q.0 in Ids(lists.items) && q.1 in Ids(lists.items)
            && (q in Pairs(lists.dependencies) ==> q == p)
  {
    hide IsLocalId, Strip, FlatMap, IsAccepted, IsGraph, Normalize, Distinct;
    var q, ids, pairs := StripPair()(p), Ids(lists.items), Pairs(lists.dependencies);
    var r := PutDependency(lists, p, description);
    var at := Find(HasEdge(p), lists.dependencies);
    var a, b := PutParts(PairOf(), lists.dependencies, at, NewDependency(p, description));
    MemberOfPairs(lists.dependencies, p);
    NormalizedIsGraph(r.items, r.dependencies, show);
    StripsPairs(ids, pairs);
    if at.Some? {
      assert p in pairs && Pairs(r.dependencies) == pairs;
      PairStripsToSelf(ids, pairs, p);
    } else {
      assert Pairs(r.dependencies) == a + [p] + b && pairs == a + b && p !in pairs;
      StripsInserted(a, p, b);
      GraphWithEdge(ids, a, q, b);
    }
  }

  lemma PairStripsToSelf(ids: seq<string>, pairs: seq<Pair>, p: Pair)
    requires IsGraph(ids, pairs) && p in pairs
    ensures StripPair()(p) == p && p.0 != p.1 && p.0 in ids && p.1 in ids
  {
    hide IsLocalId, Strip;
    LocalIdIsStripped(p.0);
    LocalIdIsStripped(p.1);
  }

  lemma StripsInserted(a: seq<Pair>, p: Pair, b: seq<Pair>)
    requires Map(StripPair(), a + b) == a + b
    ensures Map(StripPair(), a + [p] + b) == a + [StripPair()(p)] + b
  {
    hide Strip;
    MapJoin(StripPair(), a, b);
    MapJoin(StripPair(), a + [p], b);
    MapJoin(StripPair(), a, [p]);
    assert Map(StripPair(), a) == a by {
      assert (a + b)[..|a|] == a && (Map(StripPair(), a) + Map(StripPair(), b))[..|a|] == Map(StripPair(), a);
    }
    assert Map(StripPair(), b) == b by {
      assert (a + b)[|a|..] == b && (Map(StripPair(), a) + Map(StripPair(), b))[|a|..] == Map(StripPair(), b);
    }
  }

  // Removals.

  lemma {:induction false} FilterKeeps<T>(keep: T -> bool, s: seq<T>)
    ensures forall x :: x in Filter(keep, s) <==> x in s && keep(x)
    ensures Distinct(s) ==> Distinct(Filter(keep, s))
  {
    if s != [] {
      var front, last := s[..|s| - 1], s[|s| - 1];
      assert s == front + [last];
      FilterKeeps(keep, front);
      NoRepeatSnoc(front, last);
      NoRepeatSnoc(Filter(keep, front), last);
      assert Filter(keep, front) + [] == Filter(keep, front);
    }
  }

  lemma {:induction false} FilterJoin<T>(keep: T -> bool, a: seq<T>, b: seq<T>)
    ensures Filter(keep, a + b) == Filter(keep, a) + Filter(keep, b)
  {
    if b == [] {
      assert a + b == a;
    } else {
      assert (a + b)[..|a + b| - 1] == a + b[..|b| - 1];
      FilterJoin(keep, a, b[..|b| - 1]);
    }
  }

  lemma {:induction false} FlatMapOfFilter<T, U>(g: T -> seq<U>, keep: T -> bool, keep': U -> bool, s: seq<T>)
    requires forall e | e in s :: Filter(keep', g(e)) == if keep(e) then g(e) else []
    ensures FlatMap(g, Filter(keep, s)) == Filter(keep', FlatMap(g, s))
  {
    if s != [] {
      var front, last := s[..|s| - 1], s[|s| - 1];
      assert s == front + [last];
      FlatMapOfFilter(g, keep, keep', front);
      FilterLast(g, keep, keep', front, last);
    }
  }

  lemma FilterLast<T, U>(g: T -> seq<U>, keep: T -> bool, keep': U -> bool, front: seq<T>, last: T)
    requires FlatMap(g, Filter(keep, front)) == Filter(keep', FlatMap(g, front))
    requires Filter(keep', g(last)) == if keep(last) then g(last) else []
    ensures FlatMap(g, Filter(keep, front + [last])) == Filter(keep', FlatMap(g, front + [last]))
  {
    hide FlatMap;
    FlatMapAppend(g, front, last);
    FilterJoin(keep', FlatMap(g, front), g(last));
    FilterOne(keep, last);
    FilterJoin(keep, front, [last]);
    FlatMapAppend(g, Filter(keep, front), last);
    assert Filter(keep, front) + [] == Filter(keep, front);
  }

  function IsNot<T(==)>(x: T): T -> bool {
    (y: T) => y != x
  }

  function AvoidsEnd(id: string): Pair -> bool {
    (p: Pair) => p.0 != id && p.1 != id
  }

  lemma FilterOne<T>(keep: T -> bool, x: T)
    ensures Filter(keep, [x]) == if keep(x) then [x] else []
  {
    assert [x][..0] == [];
  }

  lemma RemovedParts(lists: Lists, id: string)
    requires AllMappings(lists.items) && AllMappings(lists.dependencies)
    ensures Ids(Filter(Misses(id), lists.items)) == Filter(IsNot(id), Ids(lists.items))
    ensures Pairs(Filter(Avoids(id), lists.dependencies)) == Filter(AvoidsEnd(id), Pairs(lists.dependencies))
  {
    hide FlatMap;
    forall e | e in lists.items ensures Filter(IsNot(id), IdOf()(e)) == if Misses(id)(e) then IdOf()(e) else [] {
      if IdText(e).Some? {
        FilterOne(IsNot(id), IdText(e).value);
      }
    }
    FlatMapOfFilter(IdOf(), Misses(id), IsNot(id), lists.items);
    forall e | e in lists.dependencies ensures Filter(AvoidsEnd(id), PairOf()(e)) == if Avoids(id)(e) then PairOf()(e) else [] {
      if EdgeText(e).Some? {
        FilterOne(AvoidsEnd(id), EdgeText(e).value);
      }
    }
    FlatMapOfFilter(PairOf(), Avoids(id), AvoidsEnd(id), lists.dependencies);
  }

  lemma SubgraphIsGraph(ids: seq<string>, pairs: seq<Pair>, id: string)
    requires IsGraph(ids, pairs)
    ensures IsGraph(Filter(IsNot(id), ids), Filter(AvoidsEnd(id), pairs))
  {
    hide IsLocalId, Distinct, Filter;
    FilterKeeps(IsNot(id), ids);
    FilterKeeps(AvoidsEnd(id), pairs);
  }

  lemma WrittenGraph(lists: Lists, show: int -> string)
    requires IsGraph(Ids(lists.items), Pairs(lists.dependencies))
    ensures IsAccepted(Written(lists, show))
  {
    hide IsGraph, IsAccepted, Normalize, Map;
    StripsPairs(Ids(lists.items), Pairs(lists.dependencies));
    NormalizedIsGraph(lists.items, lists.dependencies, show);
  }

  /** Removing a component leaves the graph without it and its edges, which is accepted. */
  lemma RemoveComponentKeeps(doc: Components, id: string, show: int -> string)
    requires IsAccepted(doc) && Editable(doc).Ok? && RemoveComponent(Editable(doc).value, id).Ok?
    ensures var before, after := Editable(doc).value, RemoveComponent(Editable(doc).value, id).value;
            && Ids(after.items) == Filter(IsNot(id), Ids(before.items))
            && Pairs(after.dependencies) == Filter(AvoidsEnd(id), Pairs(before.dependencies))
            && IsAccepted(Written(after, show))
  {
    hide IsGraph, Filter, Normalize;
    var lists := Editable(doc).value;
    AcceptedIsGraph(doc);
    RemovedParts(lists, id);
    SubgraphIsGraph(Ids(lists.items), Pairs(lists.dependencies), id);
    WrittenGraph(RemoveComponent(lists, id).value, show);
  }

  lemma RemovedEdge(dependencies: seq<Element<Dependency>>, p: Pair)
    ensures Pairs(Filter(Differs(p), dependencies)) == Filter(IsNot(p), Pairs(dependencies))
  {
    hide FlatMap, Filter;
    forall e | e in dependencies ensures Filter(IsNot(p), PairOf()(e)) == if Differs(p)(e) then PairOf()(e) else [] {
      if EdgeText(e).Some? {
        FilterOne(IsNot(p), EdgeText(e).value);
      } else {
        NothingFiltered(p);
      }
    }
    FlatMapOfFilter(PairOf(), Differs(p), IsNot(p), dependencies);
  }

  lemma NothingFiltered(p: Pair)
    ensures Filter(IsNot(p), []) == []
  {
  }

  lemma FewerEdges(ids: seq<string>, pairs: seq<Pair>, p: Pair)
    requires IsGraph(ids, pairs)
    ensures IsGraph(ids, Filter(IsNot(p), pairs))
  {
    hide IsLocalId, Distinct, Filter;
    FilterKeeps(IsNot(p), pairs);
  }

  /** Removing a dependency leaves every other edge, and an accepted document. */
  lemma RemoveDependencyKeeps(doc: Components, p: Pair, show: int -> string)
    requires IsAccepted(doc) && Editable(doc).Ok? && RemoveDependency(Editable(doc).value, p).Ok?
    ensures var before, after := Editable(doc).value, RemoveDependency(Editable(doc).value, p).value;
            && after.items == before.items && Pairs(after.dependencies) == Filter(IsNot(p), Pairs(before.dependencies))
            && IsAccepted(Written(after, show))
  {
    hide FlatMap, Normalize, IsGraph, Filter, IsAccepted;
    var lists := Editable(doc).value;
    AcceptedIsGraph(doc);
    RemovedEdge(lists.dependencies, p);
    FewerEdges(Ids(lists.items), Pairs(lists.dependencies), p);
    WrittenGraph(RemoveDependency(lists, p).value, show);
  }

  // Renaming and paths.

  /** A path along dependencies, from its first component to its last. */
  ghost predicate IsPath(pairs: seq<Pair>, walk: seq<string>) {
    walk != [] && forall i | 0 <= i < |walk| - 1 :: (walk[i], walk[i + 1]) in pairs
  }

  function RenameText(from: string, to: string): string -> string {
    (x: string) => Renamed(x, from, to)
  }

  lemma RenamedMember(pairs: seq<Pair>, p: Pair, from: string, to: string)
    ensures p in pairs ==> RenamePair(from, to)(p) in Map(RenamePair(from, to), pairs)
    ensures p in Map(RenamePair(from, to), pairs) ==> exists q :: q in pairs && RenamePair(from, to)(q) == p
  {
    var m := Map(RenamePair(from, to), pairs);
    if p in pairs {
      var i :| 0 <= i < |pairs| && pairs[i] == p;
      assert m[i] == RenamePair(from, to)(p);
    }
    if p in m {
      var i :| 0 <= i < |m| && m[i] == p;
      assert pairs[i] in pairs;
    }
  }

  /** Renaming to an unused id maps the paths of the graph one to one: a list of components is a path
      exactly when its renamed list is one, every path of the renamed graph is the image of its list
      renamed back, and two lists have the same image only when they are the same. */
  lemma RenameMapsPaths(ids: seq<string>, pairs: seq<Pair>, from: string, to: string, walk: seq<string>)
    requires IsGraph(ids, pairs) && (to in ids ==> to == from) && forall x | x in walk :: x in ids
    ensures IsPath(pairs, walk) <==> IsPath(Map(RenamePair(from, to), pairs), Map(RenameText(from, to), walk))
    ensures Map(RenameText(to, from), Map(RenameText(from, to), walk)) == walk
  {
    hide IsLocalId, Distinct;
    var pairs', walk' := Map(RenamePair(from, to), pairs), Map(RenameText(from, to), walk);
    forall i | 0 <= i < |walk| - 1 ensures (walk[i], walk[i + 1]) in pairs <==> (walk'[i], walk'[i + 1]) in pairs' {
      assert walk[i] in walk && walk[i + 1] in walk;
      RenamedMember(pairs, (walk[i], walk[i + 1]), from, to);
      RenamedMember(pairs, (walk'[i], walk'[i + 1]), from, to);
    }
    forall i | 0 <= i < |walk| ensures Renamed(walk'[i], to, from) == walk[i] {
      assert walk[i] in walk;
    }
  }

  lemma EdgeComesBack(ids: seq<string>, pairs: seq<Pair>, from: string, to: string, x: string, y: string)
    requires IsGraph(ids, pairs) && (to in ids ==> to == from) && (x, y) in Map(RenamePair(from, to), pairs)
    ensures (Renamed(x, to, from), Renamed(y, to, from)) in pairs
    ensures Renamed(Renamed(x, to, from), from, to) == x && Renamed(Renamed(y, to, from), from, to) == y
  {
    hide IsLocalId, Distinct, Map;
    RenamedMember(pairs, (x, y), from, to);
    var q :| q in pairs && RenamePair(from, to)(q) == (x, y);
    assert q == (Renamed(x, to, from), Renamed(y, to, from));
  }

  lemma RenamedPathComesBack(ids: seq<string>, pairs: seq<Pair>, from: string, to: string, walk: seq<string>)
    requires IsGraph(ids, pairs) && (to in ids ==> to == from) && |walk| > 1
    requires IsPath(Map(RenamePair(from, to), pairs), walk)
    ensures IsPath(pairs, Map(RenameText(to, from), walk))
    ensures Map(RenameText(from, to), Map(RenameText(to, from), walk)) == walk
  {
    hide IsGraph, Renamed;
    var back := Map(RenameText(to, from), walk);
    forall i | 0 <= i < |walk| - 1 ensures (back[i], back[i + 1]) in pairs {
      EdgeComesBack(ids, pairs, from, to, walk[i], walk[i + 1]);
    }
    forall i | 0 <= i < |walk| ensures Renamed(back[i], from, to) == walk[i] {
      var k := if i == 0 then 0 else i - 1;
      assert (walk[k], walk[k + 1]) in Map(RenamePair(from, to), pairs);
      EdgeComesBack(ids, pairs, from, to, walk[k], walk[k + 1]);
    }
  }

  // The edits as they run.

  /** `put_service_component`: finds the component, replaces or appends it, and renames the ends of its
      dependencies one after the other. */
  method PutServiceComponent(doc: Components, id: string, name: string, role: string, description: string,
                             previous: Option<string>, show: int -> string) returns (r: Result<Components, EditError>)
    ensures r == if Editable(doc).Err? then Err(Editable(doc).error)
                 else
                   var put := PutComponent(Editable(doc).value, NewItem(id, name, role, description), id, previous);
                   if put.Err? then Err(put.error) else Ok(Written(put.value, show))
  {
    var lists := Editable(doc);
    if lists.Err? {
      return Err(lists.error);
    }
    var items, dependencies := lists.value.items, lists.value.dependencies;
    var sought := if previous.Some? && previous.value != "" then previous.value else id;
    var replacement := NewItem(id, name, role, description);
    var match_ := FindFirst(HasId(sought), items);
    if previous.Some? && match_ == None {
      return Err(NoSuchComponent);
    }
    items := Put(items, match_, replacement);
    if sought != id {
      var i := 0;
      while i < |dependencies|
        invariant 0 <= i <= |dependencies| == |lists.value.dependencies|
        invariant forall k | 0 <= k < i :: dependencies[k] == RenameEnds(sought, id)(lists.value.dependencies[k])
        invariant forall k | i <= k < |dependencies| :: dependencies[k] == lists.value.dependencies[k]
      {
        var e := dependencies[i];
        if e.Mapping? && TextOf(e.doc.componentId) == Some(sought) {
          e := Mapping(e.doc.(componentId := Some(Text(id))));
        }
        if e.Mapping? && TextOf(e.doc.dependsOn) == Some(sought) {
          e := Mapping(e.doc.(dependsOn := Some(Text(id))));
        }
        dependencies := dependencies[i := e];
        i := i + 1;
      }
      assert dependencies == Map(RenameEnds(sought, id), lists.value.dependencies);
    }
    return Ok(Written(Lists(items, dependencies), show));
  }

  /** `next(index for index, element in enumerate(list) if holds(element))`. */
  method FindFirst<T>(holds: T -> bool, s: seq<T>) returns (r: Option<nat>)
    ensures r == Find(holds, s)
  {
    for i := 0 to |s|
      invariant forall k | 0 <= k < i :: !holds(s[k])
    {
      if holds(s[i]) {
        FindIsFirst(holds, s, i);
        return Some(i);
      }
    }
    return None;
  }

  lemma FindIsFirst<T>(holds: T -> bool, s: seq<T>, i: nat)
    requires i < |s| && holds(s[i]) && forall k | 0 <= k < i :: !holds(s[k])
    ensures Find(holds, s) == Some(i)
  {
    hide Find;
    assert Find(holds, s).Some?;
  }
}
