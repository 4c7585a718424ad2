/** What the four edits leave in the lists of a document: the stored components and dependencies, trimmed,
    and the change that was asked for. */
module ComponentReadings {
  import opened Wrappers
  import opened Ordering
  import opened Texts
  import opened ServiceComponents
  import opened ComponentEdits

  // Trimming.

  /** A text loses its outer white space; anything else stays. */
  ghost predicate TrimmedValue(after: Option<Value>, before: Option<Value>) {
    if before.Some? && before.value.Text? then after == Some(Text(Strip(before.value.text))) else after == before
  }

  /** The component with trimmed id, name and description; its role and other keys stay. */
  ghost predicate TrimmedItem(after: Element<Item>, before: Element<Item>) {
    if before.NotMapping? then after == before
    else
      && after.Mapping? && TrimmedValue(after.doc.id, before.doc.id) && TrimmedValue(after.doc.name, before.doc.name)
      && TrimmedValue(after.doc.description, before.doc.description)
      && after.doc.role == before.doc.role && after.doc.rest == before.doc.rest
  }

  ghost predicate TrimmedDependency(after: Element<Dependency>, before: Element<Dependency>) {
    if before.NotMapping? then after == before
    else
      && after.Mapping? && TrimmedValue(after.doc.componentId, before.doc.componentId)
      && TrimmedValue(after.doc.dependsOn, before.doc.dependsOn)
      && TrimmedValue(after.doc.description, before.doc.description) && after.doc.rest == before.doc.rest
  }

  lemma TrimIff(after: Element<Item>, before: Element<Item>)
    ensures after == StripItem()(before) <==> TrimmedItem(after, before)
  {
    hide Strip;
  }

  lemma TrimDependencyIff(after: Element<Dependency>, before: Element<Dependency>)
    ensures after == StripDependency()(before) <==> TrimmedDependency(after, before)
  {
    hide Strip;
  }

  lemma Normalized<T>(list: seq<Element<T>>, strip: Element<T> -> Element<T>, key: Element<T> -> Key, e: Element<T>)
    ensures e in NormalizeList(list, strip, key) <==> exists i :: 0 <= i < |list| && e == strip(list[i])
  {
    hide KeyLe, AllMappings;
    MultisetMembers(NormalizeList(list, strip, key), Map(strip, list));
    if i :| 0 <= i < |list| && e == strip(list[i]) {
      assert Map(strip, list)[i] == e;
    }
  }

  /** The written lists hold the trimmed elements, and nothing else. */
  lemma WrittenHolds(lists: Lists, show: int -> string, e: Element<Item>, d: Element<Dependency>)
    ensures e in Written(lists, show).items.list <==> exists i :: 0 <= i < |lists.items| && TrimmedItem(e, lists.items[i])
    ensures d in Written(lists, show).dependencies.list <==>
            exists i :: 0 <= i < |lists.dependencies| && TrimmedDependency(d, lists.dependencies[i])
  {
    hide NormalizeList, StripItem, StripDependency, ItemKey, DependencyKey, TrimmedItem, TrimmedDependency;
    Normalized(lists.items, StripItem(), ItemKey(show), e);
    Normalized(lists.dependencies, StripDependency(), DependencyKey(show), d);
    forall i | 0 <= i < |lists.items| ensures e == StripItem()(lists.items[i]) <==> TrimmedItem(e, lists.items[i]) {
      TrimIff(e, lists.items[i]);
    }
    forall i | 0 <= i < |lists.dependencies|
      ensures d == StripDependency()(lists.dependencies[i]) <==> TrimmedDependency(d, lists.dependencies[i])
    {
      TrimDependencyIff(d, lists.dependencies[i]);
    }
  }

  // Names of components.

  /** A lower-case letter or digit, alone or with another one after at most 62 characters between. */
  ghost predicate IsLocalName(s: string) {
    exists head, inner, tail :: LocalParts(s, head, inner, tail)
  }

  ghost predicate LocalParts(s: string, head: char, inner: string, tail: string) {
    && s == [head] + inner + tail && Letters(head)
    && (tail == "" ==> inner == "")
    && (tail != "" ==> |tail| == 1 && Letters(tail[0]) && |inner| <= 62 && forall c | c in inner :: Letters(c) || c == '_' || c == '-')
  }

  predicate Letters(c: char) {
    'a' <= c <= 'z' || '0' <= c <= '9'
  }

  lemma LocalNameIff(s: string)
    ensures IsLocalId(s) <==> IsLocalName(s)
  {
    if IsLocalId(s) {
      var inner, tail := if |s| == 1 then "" else s[1..|s| - 1], if |s| == 1 then "" else s[|s| - 1..];
      assert s == [s[0]] + inner + tail;
      assert forall c | c in inner :: c in s;
      assert LocalParts(s, s[0], inner, tail);
    }
    if head, inner, tail :| LocalParts(s, head, inner, tail) {
      assert s[0] == head;
      if tail != "" {
        assert s[|s| - 1] == tail[0];
      }
    }
  }

  ghost predicate HasIdText(e: Element<Item>, id: string) {
    e.Mapping? && e.doc.id == Some(Text(id))
  }

  ghost predicate HasEnds(e: Element<Dependency>, x: string, y: string) {
    e.Mapping? && e.doc.componentId == Some(Text(x)) && e.doc.dependsOn == Some(Text(y))
  }

  lemma IdIff(e: Element<Item>, id: string)
    ensures IdText(e) == Some(id) <==> HasIdText(e, id)
  {
  }

  lemma EndsIff(e: Element<Dependency>, x: string, y: string)
    ensures EdgeText(e) == Some((x, y)) <==> HasEnds(e, x, y)
  {
  }

  // Putting a component.

  /** The value with the old name of the component replaced by its new one. */
  ghost predicate RenamedValue(after: Option<Value>, before: Option<Value>, from: string, to: string) {
    if before == Some(Text(from)) then after == Some(Text(to)) else after == before
  }

  ghost predicate RenamedDependency(after: Element<Dependency>, before: Element<Dependency>, from: string, to: string) {
    if before.NotMapping? then after == before
    else
      && after.Mapping? && RenamedValue(after.doc.componentId, before.doc.componentId, from, to)
      && RenamedValue(after.doc.dependsOn, before.doc.dependsOn, from, to)
      && after.doc.description == before.doc.description && after.doc.rest == before.doc.rest
  }

  lemma RenameIff(after: Element<Dependency>, before: Element<Dependency>, from: string, to: string)
    ensures after == RenameEnds(from, to)(before) <==> RenamedDependency(after, before, from, to)
  {
  }

  /** The place of the component an edit is about: the first with the id, if there is one. */
  ghost predicate IsPlace(items: seq<Element<Item>>, id: string, at: Option<nat>) {
    match at
    case None => forall i | 0 <= i < |items| :: !HasIdText(items[i], id)
    case Some(k) => k < |items| && HasIdText(items[k], id) && forall i | 0 <= i < k :: !HasIdText(items[i], id)
  }

  lemma PlaceIff(items: seq<Element<Item>>, id: string, at: Option<nat>)
    ensures Find(HasId(id), items) == at <==> IsPlace(items, id, at)
  {
    hide HasIdText;
    var found := Find(HasId(id), items);
    forall i | 0 <= i < |items| ensures HasId(id)(items[i]) <==> HasIdText(items[i], id) {
      IdIff(items[i], id);
    }
  }

  /** The component written by a put, as the caller gave it. */
  ghost predicate IsPut(e: Element<Item>, id: string, name: string, role: string, description: string) {
    && e.Mapping? && e.doc.id == Some(Text(id)) && e.doc.name == Some(Text(name)) && e.doc.role == Some(Text(role))
    && e.doc.description == Some(Text(description)) && e.doc.rest == map[]
  }

  /** A put replaces the component it is about, which an empty previous id leaves to the new one, or adds
      it; it fails only for a previous id that no component has; other components stay, and dependencies
      follow a renaming. */
  lemma PutTells(lists: Lists, id: string, name: string, role: string, description: string, previous: Option<string>)
    ensures var sought := if previous == None || previous == Some("") then id else previous.value;
            var r := PutComponent(lists, NewItem(id, name, role, description), id, previous);
            && (r.Err? <==> previous.Some? && IsPlace(lists.items, sought, None))
            && (r.Ok? ==> exists at, item :: IsPlace(lists.items, sought, at) && IsPut(item, id, name, role, description)
                                            && PutsAt(r.value.items, lists.items, at, item))
            && (r.Ok? ==> RenamesAll(r.value.dependencies, lists.dependencies, sought, id))
  {
    hide IsPlace, RenamedDependency, HasId;
    var sought := Sought(id, previous);
    var item := NewItem(id, name, role, description);
    var at := Find(HasId(sought), lists.items);
    PlaceIff(lists.items, sought, at);
    PlaceIff(lists.items, sought, None);
    PutAt(lists.items, at, item);
    RenameAll(lists.dependencies, sought, id);
  }

  /** The list with the element at the place replaced, or with one more at its end. */
  ghost predicate PutsAt(after: seq<Element<Item>>, before: seq<Element<Item>>, at: Option<nat>, item: Element<Item>) {
    && |after| == |before| + (if at == None then 1 else 0)
    && forall i | 0 <= i < |after| ::
         if (if at.Some? then i == at.value else i == |before|) then after[i] == item else i < |before| && after[i] == before[i]
  }

  lemma PutAt(before: seq<Element<Item>>, at: Option<nat>, item: Element<Item>)
    requires at.Some? ==> at.value < |before|
    ensures PutsAt(Put(before, at, item), before, at, item)
  {
  }

  ghost predicate RenamesAll(after: seq<Element<Dependency>>, before: seq<Element<Dependency>>, from: string, to: string) {
    |after| == |before| && forall i | 0 <= i < |before| :: RenamedDependency(after[i], before[i], from, to)
  }

  lemma RenameAll(before: seq<Element<Dependency>>, from: string, to: string)
    ensures RenamesAll(Map(RenameEnds(from, to), before), before, from, to)
    ensures from == to ==> RenamesAll(before, before, from, to)
  {
    forall i | 0 <= i < |before| ensures RenamedDependency(Map(RenameEnds(from, to), before)[i], before[i], from, to) {
      RenameIff(Map(RenameEnds(from, to), before)[i], before[i], from, to);
    }
  }

  // The other edits.

  /** Removing a component keeps exactly the other components and the dependencies that do not name it. */
  lemma RemovalTells(lists: Lists, id: string, e: Element<Item>, d: Element<Dependency>)
    ensures RemoveComponent(lists, id).Err? <==> IsPlace(lists.items, id, None)
    ensures RemoveComponent(lists, id).Ok? ==>
              && (e in RemoveComponent(lists, id).value.items <==> e in lists.items && !HasIdText(e, id))
              && (d in RemoveComponent(lists, id).value.dependencies <==>
                  d in lists.dependencies && d.Mapping? && d.doc.componentId != Some(Text(id)) && d.doc.dependsOn != Some(Text(id)))
  {
    hide Filter, IsPlace;
    PlaceIff(lists.items, id, None);
    FilterKeeps(Misses(id), lists.items);
    FilterKeeps(Avoids(id), lists.dependencies);
    IdIff(e, id);
  }

  /** A put dependency has the two ends and its description unless that is blank; it replaces the first one with
      these ends, and is added otherwise. */
  lemma PutDependencyTells(lists: Lists, x: string, y: string, description: Option<string>)
    ensures var after := PutDependency(lists, (x, y), description);
            && after.items == lists.items
            && (forall i | 0 <= i < |lists.dependencies| ::
                  i < |after.dependencies|
                  && (after.dependencies[i] != lists.dependencies[i] ==>
                      HasEnds(lists.dependencies[i], x, y) && forall k | 0 <= k < i :: !HasEnds(lists.dependencies[k], x, y)))
            && (exists i :: 0 <= i < |after.dependencies| && IsPutDependency(after.dependencies[i], x, y, description)
                            && (if (exists k | 0 <= k < |lists.dependencies| :: HasEnds(lists.dependencies[k], x, y))
                                then i < |lists.dependencies| && HasEnds(lists.dependencies[i], x, y)
                                     && |after.dependencies| == |lists.dependencies|
                                else i == |lists.dependencies| && |after.dependencies| == |lists.dependencies| + 1))
  {
    hide HasEnds, IsPutDependency, HasEdge;
    var p := (x, y);
    var at := Find(HasEdge(p), lists.dependencies);
    forall i | 0 <= i < |lists.dependencies| ensures HasEdge(p)(lists.dependencies[i]) <==> HasEnds(lists.dependencies[i], x, y) {
      EdgeHeldIff(lists.dependencies[i], x, y);
    }
    NewDependencyIs(x, y, description);
    var place := if at.Some? then at.value else |lists.dependencies|;
    assert PutDependency(lists, p, description).dependencies[place] == NewDependency(p, description);
  }

  lemma EdgeHeldIff(e: Element<Dependency>, x: string, y: string)
    ensures HasEdge((x, y))(e) <==> HasEnds(e, x, y)
  {
  }

  ghost predicate IsPutDependency(e: Element<Dependency>, x: string, y: string, description: Option<string>) {
    && HasEnds(e, x, y) && e.doc.rest == map[]
    && e.doc.description == if description == None || IsBlank(description.value) then None else Some(Text(description.value))
  }

  lemma NewDependencyIs(x: string, y: string, description: Option<string>)
    ensures IsPutDependency(NewDependency((x, y), description), x, y, description)
  {
  }

  /** Removing a dependency keeps exactly the others, and fails when there was none. */
  lemma DependencyRemovalTells(lists: Lists, x: string, y: string, d: Element<Dependency>)
    ensures RemoveDependency(lists, (x, y)).Err? <==> forall e | e in lists.dependencies :: !HasEnds(e, x, y)
    ensures RemoveDependency(lists, (x, y)).Ok? ==>
              && RemoveDependency(lists, (x, y)).value.items == lists.items
              && (d in RemoveDependency(lists, (x, y)).value.dependencies <==> d in lists.dependencies && !HasEnds(d, x, y))
  {
    hide Filter, HasEnds;
    FilterKeeps(Differs((x, y)), lists.dependencies);
    FilterShrinks(Differs((x, y)), lists.dependencies);
    forall e ensures Differs((x, y))(e) <==> !HasEnds(e, x, y) {
      EndsIff(e, x, y);
    }
  }

  lemma {:induction false} FilterShrinks<T>(keep: T -> bool, s: seq<T>)
    ensures |Filter(keep, s)| <= |s|
    ensures |Filter(keep, s)| == |s| <==> forall x | x in s :: keep(x)
  {
    if s != [] {
      var front, last := s[..|s| - 1], s[|s| - 1];
      assert s == front + [last];
      FilterShrinks(keep, front);
    }
  }
}
