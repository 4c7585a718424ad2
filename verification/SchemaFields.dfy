/** The declarative field schema: what a field specification may declare, how its path is resolved in
    a document, and which values it rejects. */
module SchemaFields {
  import opened JsonValues
  import opened Wrappers
  import opened Ordering
  import opened References

  /** One dot-separated part of a declared path; an array part is written with a trailing `[]`. */
  datatype Part = Part(key: string, isArray: bool)
  {
    function Text(): string {
      if isArray then key + "[]" else key
    }
  }

  type Path = seq<Part>

  datatype FieldType =
    | StringType | TextType | DatetimeType | IntegerType | BooleanType | ObjectType | ArrayType | StringOrObjectType
    | EnumType | IpType | UrlType | PortType | ReferenceType

  datatype FieldSpec = FieldSpec(path: Path, fieldType: FieldType, required: bool, requiredInItem: bool,
                                 requiredInItemRule: Option<string>, enumValues: set<Json>, referenceKinds: set<Kind>,
                                 literal: Option<Json>, stripWhitespace: bool,
                                 minLength: Option<int>, maxLength: Option<int>, minItems: Option<int>, maxItems: Option<int>,
                                 minimum: Option<int>, maximum: Option<int>, allowedKeys: set<string>,
                                 forbidUrlCredentials: bool, forbiddenMessage: Option<string>)

  predicate InOrder(low: Option<int>, high: Option<int>) {
    low.Some? && high.Some? ==> low.value <= high.value
  }

  predicate NotNegative(bound: Option<int>) {
    bound.Some? ==> bound.value >= 0
  }

  /** `FieldSpec.__post_init__` raises nothing. */
  predicate IsAllowed(f: FieldSpec, isSecret: string -> bool) {
    && f.path != [] && (forall i | 0 <= i < |f.path| :: f.path[i].Text() != "")
    && (f.requiredInItemRule.Some? ==> f.requiredInItem)
    && (forall i | 0 <= i < |f.path| :: !isSecret(f.path[i].key))
    && (f.fieldType == EnumType ==> f.enumValues != {})
    && (f.fieldType == ReferenceType ==> f.referenceKinds != {})
    && (f.stripWhitespace ==> f.fieldType in {StringType, TextType})
    && (f.minLength.Some? || f.maxLength.Some? ==> f.fieldType in {StringType, TextType, UrlType})
    && NotNegative(f.minLength) && NotNegative(f.maxLength) && InOrder(f.minLength, f.maxLength)
    && (f.minItems.Some? || f.maxItems.Some? ==> f.fieldType == ArrayType)
    && NotNegative(f.minItems) && NotNegative(f.maxItems) && InOrder(f.minItems, f.maxItems)
    && (f.minimum.Some? || f.maximum.Some? ==> f.fieldType == IntegerType)
    && InOrder(f.minimum, f.maximum)
    && (f.allowedKeys != {} ==> f.fieldType == ObjectType)
    && (f.forbidUrlCredentials ==> f.fieldType == UrlType)
    && (f.forbiddenMessage.Some? ==>
        !f.required && !f.requiredInItem && f.enumValues == {} && f.referenceKinds == {} && f.literal == None)
    && (f.requiredInItem ==> exists i | 0 <= i < |f.path| :: f.path[i].isArray)
  }

  datatype Violation =
    | RequiredFieldMissing | FieldNotAllowed | TypeMismatch | ValueNotAllowed | ValueNotConstant | ValueTooShort
    | ValueTooLong | ValueOutOfRange | InvalidFormat | ReferenceKindNotAllowed

  // Locations.

  datatype Step = Key(key: string) | Index(index: nat)

  type Location = seq<Step>

  datatype Rejection = Rejection(at: Location, code: Violation)

  function Child(v: Json, step: Step): Option<Json> {
    match step
    case Key(key) => v.At(key)
    case Index(i) => if v.JList? && i < |v.items| then Some(v.items[i]) else None
  }

  /** The value at a location of a document. */
  function Follow(data: Json, at: Location): Option<Json> {
    if at == [] then Some(data)
    else
      var parent := Follow(data, at[..|at| - 1]);
      if parent == None then None else Child(parent.value, at[|at| - 1])
  }

  lemma FollowChild(data: Json, at: Location, step: Step)
    ensures Follow(data, at + [step]) == if Follow(data, at) == None then None else Child(Follow(data, at).value, step)
  {
    assert (at + [step])[..|at + [step]| - 1] == at;
  }

  /** `at` is what one part names directly below `parent`; an array part names any of the elements. */
  predicate IsBelow(at: Location, parent: Location, part: Part) {
    if part.isArray then |at| == |parent| + 2 && at[..|parent| + 1] == parent + [Key(part.key)] && at[|parent| + 1].Index?
    else at == parent + [Key(part.key)]
  }

  /** The location is an instance of the declared path, with an index for every array part. */
  predicate Matches(at: Location, path: Path) {
    if path == [] then at == []
    else
      var part := path[|path| - 1];
      var depth := if part.isArray then 2 else 1;
      |at| >= depth && IsBelow(at, at[..|at| - depth], part) && Matches(at[..|at| - depth], path[..|path| - 1])
  }

  lemma MatchesSnoc(at: Location, path: Path, part: Part)
    ensures Matches(at, path + [part]) <==> exists parent :: Matches(parent, path) && IsBelow(at, parent, part)
  {
    assert (path + [part])[..|path + [part]| - 1] == path;
    var depth := if part.isArray then 2 else 1;
    if parent :| Matches(parent, path) && IsBelow(at, parent, part) {
      assert at[..|at| - depth] == parent;
    }
  }

  // Resolution.

  datatype Found = Found(at: Location, value: Json)

  /** What one part finds below one value. */
  function Expand(found: Found, part: Part): Result<seq<Found>, Rejection> {
    if !found.value.JObject? then Err(Rejection(found.at, TypeMismatch))
    else if part.key !in found.value.fields then Ok([])
    else
      var value, at := found.value.fields[part.key], found.at + [Key(part.key)];
      if !part.isArray then Ok([Found(at, value)])
      else if !value.JList? then Err(Rejection(at, TypeMismatch))
      else Ok(seq(|value.items|, i requires 0 <= i < |value.items| => Found(at + [Index(i)], value.items[i])))
  }

  function ExpandAll(resolved: seq<Found>, part: Part): Result<seq<Found>, Rejection> {
    if resolved == [] then Ok([])
    else
      var before :- ExpandAll(resolved[..|resolved| - 1], part);
      var last :- Expand(resolved[|resolved| - 1], part);
      Ok(before + last)
  }

  /** `_resolve_values`. */
  function Resolve(data: Json, path: Path): Result<seq<Found>, Rejection> {
    if path == [] then Ok([Found([], data)])
    else
      var resolved :- Resolve(data, path[..|path| - 1]);
      ExpandAll(resolved, path[|path| - 1])
  }

  /** `_resolve_values`, with its loops. */
  method ResolveValues(data: Json, path: Path) returns (r: Result<seq<Found>, Rejection>)
    ensures r == Resolve(data, path)
  {
    var resolved := [Found([], data)];
    for i := 0 to |path|
      invariant Resolve(data, path[..i]) == Ok(resolved)
    {
      assert path[..i + 1][..i] == path[..i];
      var next := ExpandEach(resolved, path[i]);
      if next.Err? {
        FaultStays(data, path, i + 1);
        return next;
      }
      resolved := next.value;
    }
    assert path[..|path|] == path;
    return Ok(resolved);
  }

  method ExpandEach(resolved: seq<Found>, part: Part) returns (r: Result<seq<Found>, Rejection>)
    ensures r == ExpandAll(resolved, part)
  {
    hide Expand;
    var next: seq<Found> := [];
    for i := 0 to |resolved|
      invariant ExpandAll(resolved[..i], part) == Ok(next)
    {
      assert resolved[..i + 1][..i] == resolved[..i];
      var more := Expand(resolved[i], part);
      if more.Err? {
        FirstFaultStays(resolved, part, i + 1);
        return more;
      }
      next := next + more.value;
    }
    assert resolved[..|resolved|] == resolved;
    return Ok(next);
  }

  lemma {:induction false} FirstFaultStays(resolved: seq<Found>, part: Part, i: nat)
    requires i <= |resolved| && ExpandAll(resolved[..i], part).Err?
    ensures ExpandAll(resolved, part) == ExpandAll(resolved[..i], part)
    decreases |resolved| - i
  {
    hide Expand;
    if i < |resolved| {
      assert resolved[..i + 1][..i] == resolved[..i];
      FirstFaultStays(resolved, part, i + 1);
    } else {
      assert resolved[..i] == resolved;
    }
  }

  lemma {:induction false} FaultStays(data: Json, path: Path, i: nat)
    requires i <= |path| && Resolve(data, path[..i]).Err?
    ensures Resolve(data, path) == Resolve(data, path[..i])
    decreases |path| - i
  {
    hide ExpandAll;
    if i < |path| {
      assert path[..i + 1][..i] == path[..i];
      FaultStays(data, path, i + 1);
    } else {
      assert path[..i] == path;
    }
  }

  /** The list holds exactly the values below its parents that the part names. */
  ghost predicate FindsBelow(data: Json, list: seq<Found>, parents: seq<Found>, part: Part) {
    forall at: Location, v ::
      Found(at, v) in list <==> Follow(data, at) == Some(v) && exists p :: p in parents && IsBelow(at, p.at, part)
  }

  ghost predicate AreFound(data: Json, list: seq<Found>) {
    forall f | f in list :: Follow(data, f.at) == Some(f.value)
  }

  /** The location of some element directly below `below`. */
  predicate IsElementOf(at: Location, below: Location) {
    |at| == |below| + 1 && at[..|below|] == below && at[|below|].Index?
  }

  lemma ElementsBelow(data: Json, below: Location, items: seq<Json>, list: seq<Found>, at: Location, v: Json)
    requires Follow(data, below) == Some(JList(items)) && |list| == |items|
    requires forall i | 0 <= i < |items| :: list[i] == Found(below + [Index(i)], items[i])
    ensures Found(at, v) in list <==> Follow(data, at) == Some(v) && IsElementOf(at, below)
  {
    hide Follow, IsElementOf;
    if Found(at, v) in list {
      var i :| 0 <= i < |list| && list[i] == Found(at, v);
      FollowChild(data, below, Index(i));
      ElementLocation(below, i);
    }
    if Follow(data, at) == Some(v) && IsElementOf(at, below) {
      var i := ElementIndex(at, below);
      FollowChild(data, below, Index(i));
      assert list[i] == Found(at, v);
    }
  }

  lemma ElementLocation(below: Location, i: nat)
    ensures IsElementOf(below + [Index(i)], below)
  {
    assert (below + [Index(i)])[..|below|] == below;
  }

  lemma ElementIndex(at: Location, below: Location) returns (i: nat)
    requires IsElementOf(at, below)
    ensures at == below + [Index(i)]
  {
    i := at[|below|].index;
  }

  lemma ExpandFinds(data: Json, found: Found, part: Part)
    requires Follow(data, found.at) == Some(found.value) && Expand(found, part).Ok?
    ensures FindsBelow(data, Expand(found, part).value, [found], part)
  {
    var list, below := Expand(found, part).value, found.at + [Key(part.key)];
    FollowChild(data, found.at, Key(part.key));
    assert found in [found];
    forall at: Location, v
      ensures Found(at, v) in list <==> Follow(data, at) == Some(v) && exists p :: p in [found] && IsBelow(at, p.at, part)
    {
      assert (exists p :: p in [found] && IsBelow(at, p.at, part)) <==> IsBelow(at, found.at, part);
      if part.isArray {
        if part.key in found.value.fields {
          ElementsBelow(data, below, found.value.fields[part.key].items, list, at, v);
        } else if IsBelow(at, found.at, part) {
          FollowChild(data, below, at[|at| - 1]);
          assert at == below + [at[|at| - 1]];
        }
      }
    }
  }

  lemma FoundBelow(data: Json, list: seq<Found>, parents: seq<Found>, part: Part)
    requires FindsBelow(data, list, parents, part)
    ensures AreFound(data, list)
  {
    forall f | f in list ensures Follow(data, f.at) == Some(f.value) {
      assert Found(f.at, f.value) in list;
    }
  }

  lemma {:induction false} ExpandAllFinds(data: Json, resolved: seq<Found>, part: Part)
    requires AreFound(data, resolved) && ExpandAll(resolved, part).Ok?
    ensures FindsBelow(data, ExpandAll(resolved, part).value, resolved, part)
  {
    hide Expand, Follow, IsBelow;
    if resolved != [] {
      var front, last := resolved[..|resolved| - 1], resolved[|resolved| - 1];
      assert resolved == front + [last];
      ExpandAllFinds(data, front, part);
      ExpandFinds(data, last, part);
      JoinFinds(data, ExpandAll(front, part).value, Expand(last, part).value, front, last, part);
    }
  }

  lemma JoinFinds(data: Json, a: seq<Found>, b: seq<Found>, front: seq<Found>, last: Found, part: Part)
    requires FindsBelow(data, a, front, part) && FindsBelow(data, b, [last], part)
    ensures FindsBelow(data, a + b, front + [last], part)
  {
    hide Follow, IsBelow;
    var all := front + [last];
    forall at: Location, v
      ensures Found(at, v) in a + b <==> Follow(data, at) == Some(v) && exists p :: p in all && IsBelow(at, p.at, part)
    {
      assert (exists p :: p in [last] && IsBelow(at, p.at, part)) <==> IsBelow(at, last.at, part) by {
        assert last in [last];
      }
      assert last in all && forall p | p in front :: p in all;
      assert Found(at, v) in a + b <==> Found(at, v) in a || Found(at, v) in b;
    }
  }

  /** The values resolved are exactly those at the locations the declared path names. */
  lemma {:induction false} ResolveIsComplete(data: Json, path: Path)
    requires Resolve(data, path).Ok?
    ensures AreFound(data, Resolve(data, path).value)
    ensures forall at: Location, v ::
              Found(at, v) in Resolve(data, path).value <==> Matches(at, path) && Follow(data, at) == Some(v)
  {
    hide ExpandAll, IsBelow;
    if path != [] {
      var front, part := path[..|path| - 1], path[|path| - 1];
      assert path == front + [part];
      ResolveIsComplete(data, front);
      var resolved, list := Resolve(data, front).value, Resolve(data, path).value;
      ExpandAllFinds(data, resolved, part);
      FoundBelow(data, list, resolved, part);
      forall at: Location, v ensures Found(at, v) in list <==> Matches(at, path) && Follow(data, at) == Some(v) {
        MatchesSnoc(at, front, part);
        if Follow(data, at) == Some(v) {
          BelowFound(data, resolved, front, at, part);
        }
      }
    }
  }

  /** Only a value that is there can have anything below it. */
  lemma BelowFound(data: Json, resolved: seq<Found>, path: Path, at: Location, part: Part)
    requires Follow(data, at).Some?
    requires forall p: Location, v :: Found(p, v) in resolved <==> Matches(p, path) && Follow(data, p) == Some(v)
    ensures (exists p :: p in resolved && IsBelow(at, p.at, part)) <==> exists p :: Matches(p, path) && IsBelow(at, p, part)
  {
    if f :| f in resolved && IsBelow(at, f.at, part) {
      assert Found(f.at, f.value) in resolved;
    }
    if p :| Matches(p, path) && IsBelow(at, p, part) {
      AncestorIsThere(data, at, p, part);
      assert Found(p, Follow(data, p).value) in resolved;
    }
  }

  lemma AncestorIsThere(data: Json, at: Location, parent: Location, part: Part)
    requires IsBelow(at, parent, part) && Follow(data, at).Some?
    ensures Follow(data, parent).Some?
  {
    var below := parent + [Key(part.key)];
    FollowChild(data, parent, Key(part.key));
    if part.isArray {
      assert at == below + [at[|at| - 1]];
      FollowChild(data, below, at[|at| - 1]);
    }
  }

  /** The value at `rejection.at` is not an object below `parent`, or not the list the part needs. */
  predicate IsFaultAt(data: Json, parent: Location, part: Part, rejection: Rejection) {
    && rejection.code == TypeMismatch && Follow(data, rejection.at).Some?
    && ((rejection.at == parent && !Follow(data, rejection.at).value.JObject?)
        || (part.isArray && rejection.at == parent + [Key(part.key)] && !Follow(data, rejection.at).value.JList?))
  }

  lemma {:induction false} ExpandFaults(data: Json, resolved: seq<Found>, part: Part)
    requires AreFound(data, resolved) && ExpandAll(resolved, part).Err?
    ensures exists f :: f in resolved && IsFaultAt(data, f.at, part, ExpandAll(resolved, part).error)
  {
    var front, last := resolved[..|resolved| - 1], resolved[|resolved| - 1];
    assert resolved == front + [last];
    if ExpandAll(front, part).Err? {
      ExpandFaults(data, front, part);
      var f :| f in front && IsFaultAt(data, f.at, part, ExpandAll(front, part).error);
      assert f in resolved;
    } else {
      FollowChild(data, last.at, Key(part.key));
      assert IsFaultAt(data, last.at, part, Expand(last, part).error);
    }
  }

  /** A container on the way to the field is not what the path needs: an object below each part, a
      list at an array part. */
  ghost predicate IsContainerFault(data: Json, path: Path, rejection: Rejection) {
    exists i, parent | 0 <= i < |path| && Matches(parent, path[..i]) :: IsFaultAt(data, parent, path[i], rejection)
  }

  /** Resolution rejects only for a container that is there and is of the wrong type. */
  lemma {:induction false} ResolveFaults(data: Json, path: Path)
    requires Resolve(data, path).Err?
    ensures IsContainerFault(data, path, Resolve(data, path).error)
  {
    hide ExpandAll, IsFaultAt, Matches;
    var front, part := path[..|path| - 1], path[|path| - 1];
    if Resolve(data, front).Err? {
      ResolveFaults(data, front);
      var rejection := Resolve(data, front).error;
      var i, parent :| 0 <= i < |front| && Matches(parent, front[..i]) && IsFaultAt(data, parent, front[i], rejection);
      assert front[..i] == path[..i] && front[i] == path[i];
    } else {
      ResolveIsComplete(data, front);
      var resolved := Resolve(data, front).value;
      ExpandFaults(data, resolved, part);
      var f :| f in resolved && IsFaultAt(data, f.at, part, Resolve(data, path).error);
      assert Found(f.at, f.value) in resolved && Matches(f.at, path[..|path| - 1]);
    }
  }
}
