/** Validation of whole fields, and what their rejections say: the violation is one the field
    publishes, and the location is in the document. Where the code falls short, the exact condition. */
module SchemaTheorems {
  import opened JsonValues
  import opened Wrappers
  import opened Ordering
  import opened References
  import opened SchemaFields
  import opened SchemaValidation

  /** The declared path as it is reported, with its `[]` suffixes. */
  function Declared(path: Path): Location {
    KeysOf(Texts(path))
  }

  function KeysOf(texts: seq<string>): Location {
    seq(|texts|, i requires 0 <= i < |texts| => Key(texts[i]))
  }

  function RejectValue(f: FieldSpec, found: Found, fmt: Formats): Option<Rejection> {
    if f.forbiddenMessage.Some? then Some(Rejection(found.at, FieldNotAllowed))
    else ValidateValue(f, found.at, found.value, fmt)
  }

  function RejectValues(f: FieldSpec, values: seq<Found>, fmt: Formats): (r: Option<Rejection>)
    ensures r.Some? ==> exists found :: found in values && RejectValue(f, found, fmt) == r
    ensures r == None ==> forall found | found in values :: RejectValue(f, found, fmt) == None
  {
    hide RejectValue;
    if values == [] then None
    else
      assert values == [values[0]] + values[1..];
      var first := RejectValue(f, values[0], fmt);
      if first.Some? then first else RejectValues(f, values[1..], fmt)
  }

  /** One turn of the loop of `validate_fields`. */
  function ValidateField(f: FieldSpec, data: Json, fmt: Formats): Option<Rejection> {
    match Resolve(data, f.path)
    case Err(rejection) => Some(rejection)
    case Ok(values) =>
      if f.required && values == [] then Some(Rejection(Declared(f.path), RequiredFieldMissing))
      else if f.requiredInItem && FirstMissing(data, f.path).Some? then
        Some(Rejection(FirstMissing(data, f.path).value, RequiredFieldMissing))
      else RejectValues(f, values, fmt)
  }

  /** `validate_fields`: the rejection of the first field that rejects the document. */
  method ValidateFields(data: Json, fields: seq<FieldSpec>, fmt: Formats) returns (r: Option<Rejection>)
    ensures r == None ==> forall f | f in fields :: ValidateField(f, data, fmt) == None
    ensures r.Some? ==> exists i | 0 <= i < |fields| ::
              ValidateField(fields[i], data, fmt) == r && forall k | 0 <= k < i :: ValidateField(fields[k], data, fmt) == None
  {
    for i := 0 to |fields|
      invariant forall k | 0 <= k < i :: ValidateField(fields[k], data, fmt) == None
    {
      var f := fields[i];
      var values := ResolveValues(data, f.path);
      if values.Err? {
        return Some(values.error);
      }
      if f.required && values.value == [] {
        return Some(Rejection(Declared(f.path), RequiredFieldMissing));
      }
      if f.requiredInItem {
        var missing := FirstMissingItemField(data, f.path);
        if missing.Some? {
          return Some(Rejection(missing.value, RequiredFieldMissing));
        }
      }
      r := RejectValues(f, values.value, fmt);
      if r.Some? {
        return;
      }
    }
    r := None;
  }

  /** The field has a value at the location. */
  predicate IsGiven(f: FieldSpec, data: Json, at: Location) {
    Matches(at, f.path) && Follow(data, at).Some?
  }

  lemma GivenAreResolved(f: FieldSpec, data: Json)
    requires Resolve(data, f.path).Ok?
    ensures Resolve(data, f.path).value != [] <==> exists at :: IsGiven(f, data, at)
    ensures forall at | IsGiven(f, data, at) :: Found(at, Follow(data, at).value) in Resolve(data, f.path).value
    ensures forall found | found in Resolve(data, f.path).value ::
              IsGiven(f, data, found.at) && found == Found(found.at, Follow(data, found.at).value)
  {
    hide Resolve, Matches, Follow;
    ResolveIsComplete(data, f.path);
    var values := Resolve(data, f.path).value;
    forall found | found in values ensures IsGiven(f, data, found.at) && Follow(data, found.at) == Some(found.value) {
      assert Found(found.at, found.value) in values;
    }
    if values != [] {
      assert values[0] in values;
    }
  }

  /** A field accepts exactly the documents whose containers fit, that have the field where it is
      required, and whose every value of the field is accepted. */
  lemma AcceptedIff(f: FieldSpec, data: Json, fmt: Formats)
    ensures ValidateField(f, data, fmt) == None <==>
            && Resolve(data, f.path).Ok?
            && (f.required ==> exists at :: IsGiven(f, data, at))
            && (f.requiredInItem ==> FirstMissing(data, f.path) == None)
            && forall at | IsGiven(f, data, at) :: RejectValue(f, Found(at, Follow(data, at).value), fmt) == None
  {
    hide RejectValue, FirstMissing, Resolve, IsGiven, Follow, Declared;
    if Resolve(data, f.path).Ok? {
      GivenAreResolved(f, data);
    }
  }

  // Published violations.

  /** Some container on the way to the field is of the wrong type. */
  ghost predicate HasWrongContainer(data: Json, path: Path) {
    exists fault :: IsContainerFault(data, path, fault)
  }

  /** The part needs a list, and finds something else. */
  predicate IsNoList(data: Json, parent: Location, part: Part) {
    part.isArray && Follow(data, parent + [Key(part.key)]).Some? && !Follow(data, parent + [Key(part.key)]).value.JList?
  }

  lemma {:induction false} ListsFit(data: Json, path: Path, i: nat, at: Location)
    requires Resolve(data, path).Ok? && i < |path| && Matches(at, path[..i])
    ensures !IsNoList(data, at, path[i])
    decreases |path|
  {
    hide Matches, Follow;
    var front := path[..|path| - 1];
    if i < |front| {
      assert front[..i] == path[..i];
      ListsFit(data, front, i, at);
    } else if IsNoList(data, at, path[i]) {
      FollowChild(data, at, Key(path[i].key));
      ResolveIsComplete(data, front);
      assert path[..i] == front;
      var resolved := Resolve(data, front).value;
      assert Found(at, Follow(data, at).value) in resolved;
      ExpandedAreObjects(resolved, path[i], Found(at, Follow(data, at).value));
      assert false;
    }
  }

  /** Resolution fails exactly when some container on the way is of the wrong type. */
  lemma ResolutionFailsIff(data: Json, path: Path)
    ensures Resolve(data, path).Err? <==> HasWrongContainer(data, path)
  {
    hide Resolve, Matches, Follow;
    if Resolve(data, path).Err? {
      ResolveFaults(data, path);
    } else if HasWrongContainer(data, path) {
      var fault :| IsContainerFault(data, path, fault);
      var i, parent :| 0 <= i < |path| && Matches(parent, path[..i]) && IsFaultAt(data, parent, path[i], fault);
      ListsFit(data, path, i, parent);
      if fault.at == parent {
        ContainersFit(data, path, i, parent);
      }
      assert false;
    }
  }

  lemma FaultIsPublishedIff(f: FieldSpec, code: Violation, hasTypeContract: bool)
    requires code == TypeMismatch
    ensures Publishes(f, hasTypeContract, code) <==> f.forbiddenMessage == None && TypeMismatch in TypeViolations(f.fieldType)
  {
  }

  lemma FaultCode(data: Json, path: Path, fault: Rejection)
    requires IsContainerFault(data, path, fault)
    ensures fault.code == TypeMismatch
  {
  }

  /** A rejection is one the field does not publish exactly when a container on the way to the field is
      of the wrong type and the field is forbidden or its type has no type mismatch of its own. */
  lemma RejectionIsPublished(f: FieldSpec, isSecret: string -> bool, data: Json, fmt: Formats, hasTypeContract: bool)
    requires IsAllowed(f, isSecret) && ValidateField(f, data, fmt).Some?
    ensures !Publishes(f, hasTypeContract, ValidateField(f, data, fmt).value.code) <==>
            HasWrongContainer(data, f.path) && (f.forbiddenMessage.Some? || TypeMismatch !in TypeViolations(f.fieldType))
    ensures HasWrongContainer(data, f.path) ==> IsContainerFault(data, f.path, ValidateField(f, data, fmt).value)
  {
    hide RejectValue, Resolve, IsContainerFault, Publishes, IsAllowed, TypeViolations;
    ResolutionFailsIff(data, f.path);
    if Resolve(data, f.path).Err? {
      ResolveFaults(data, f.path);
      FaultCode(data, f.path, Resolve(data, f.path).error);
      FaultIsPublishedIff(f, TypeMismatch, hasTypeContract);
    } else if (f.required && Resolve(data, f.path).value == []) || (f.requiredInItem && FirstMissing(data, f.path).Some?) {
      RequirementIsPublished(f, isSecret);
    } else {
      var found :| found in Resolve(data, f.path).value && RejectValue(f, found, fmt) == ValidateField(f, data, fmt);
      ResolveIsComplete(data, f.path);
      FoundRejectionIsPublished(f, isSecret, data, found, fmt);
    }
  }

  lemma RequirementIsPublished(f: FieldSpec, isSecret: string -> bool)
    requires IsAllowed(f, isSecret) && (f.required || f.requiredInItem)
    ensures forall hasTypeContract :: Publishes(f, hasTypeContract, RequiredFieldMissing)
  {
  }

  lemma FoundRejectionIsPublished(f: FieldSpec, isSecret: string -> bool, data: Json, found: Found, fmt: Formats)
    requires IsAllowed(f, isSecret) && Follow(data, found.at) == Some(found.value) && RejectValue(f, found, fmt).Some?
    ensures forall hasTypeContract :: Publishes(f, hasTypeContract, RejectValue(f, found, fmt).value.code)
    ensures Follow(data, RejectValue(f, found, fmt).value.at).Some?
  {
    hide ValidateValue, IsAllowed;
    if f.forbiddenMessage == None {
      ValueRejectionIsPublished(f, isSecret, found.at, found.value, fmt, data);
    }
  }

  /** Whatever is rejected but for an absence is reported at a real location of the document. */
  lemma RejectedValueIsThere(f: FieldSpec, isSecret: string -> bool, data: Json, fmt: Formats)
    requires IsAllowed(f, isSecret) && ValidateField(f, data, fmt).Some?
    requires ValidateField(f, data, fmt).value.code != RequiredFieldMissing
    ensures Follow(data, ValidateField(f, data, fmt).value.at).Some?
  {
    hide RejectValue, Resolve, IsContainerFault, FirstMissing, Declared;
    if Resolve(data, f.path).Err? {
      ResolveFaults(data, f.path);
      FaultIsThere(data, f.path, Resolve(data, f.path).error);
    } else {
      var found :| found in Resolve(data, f.path).value && RejectValue(f, found, fmt) == ValidateField(f, data, fmt);
      ResolveIsComplete(data, f.path);
      FoundRejectionIsPublished(f, isSecret, data, found, fmt);
    }
  }

  lemma FaultIsThere(data: Json, path: Path, rejection: Rejection)
    requires IsContainerFault(data, path, rejection)
    ensures Follow(data, rejection.at).Some?
  {
  }

  // Absences.

  /** The object that should have the key is there, and the key is not. */
  predicate IsMissingKey(data: Json, at: Location) {
    && |at| >= 1 && at[|at| - 1].Key?
    && Follow(data, at[..|at| - 1]).Some? && Follow(data, at[..|at| - 1]).value.JObject?
    && at[|at| - 1].key !in Follow(data, at[..|at| - 1]).value.fields
  }

  predicate IsPlain(path: Path) {
    forall i | 0 <= i < |path| :: !path[i].isArray
  }

  lemma {:induction false} PlainMatches(path: Path, at: Location)
    requires IsPlain(path)
    ensures Matches(at, path) <==> at == Declared(path)
  {
    if path != [] {
      var front := path[..|path| - 1];
      if |at| >= 1 {
        PlainMatches(front, at[..|at| - 1]);
        assert Declared(path)[..|path| - 1] == Declared(front);
        if Matches(at, path) {
          assert at == at[..|at| - 1] + [at[|at| - 1]];
        }
        if at == Declared(path) {
          assert at[..|at| - 1] == Declared(front) && at[|at| - 1] == Key(path[|path| - 1].key);
          assert at == at[..|at| - 1] + [Key(path[|path| - 1].key)];
        }
      }
    } else {
      assert Declared(path) == [];
    }
  }

  /** Resolution that succeeds has found an object at every place where a part is looked up. */
  lemma {:induction false} ContainersFit(data: Json, path: Path, i: nat, at: Location)
    requires Resolve(data, path).Ok? && i < |path| && Matches(at, path[..i]) && Follow(data, at).Some?
    ensures Follow(data, at).value.JObject?
    decreases |path|
  {
    hide Matches, Follow;
    var front := path[..|path| - 1];
    if i < |front| {
      assert front[..i] == path[..i];
      ContainersFit(data, front, i, at);
    } else {
      ResolveIsComplete(data, front);
      assert path[..i] == front;
      var resolved := Resolve(data, front).value;
      assert Found(at, Follow(data, at).value) in resolved;
      ExpandedAreObjects(resolved, path[|path| - 1], Found(at, Follow(data, at).value));
    }
  }

  lemma {:induction false} ExpandedAreObjects(resolved: seq<Found>, part: Part, found: Found)
    requires ExpandAll(resolved, part).Ok? && found in resolved
    ensures found.value.JObject?
    ensures part.isArray && part.key in found.value.fields ==> found.value.fields[part.key].JList?
  {
    var front, last := resolved[..|resolved| - 1], resolved[|resolved| - 1];
    assert resolved == front + [last];
    if found in front {
      ExpandedAreObjects(front, part, found);
    }
  }

  /** An absent required field whose containers are no arrays is reported as a missing key exactly when
      the object it belongs to is there and does not spell a key like the last part; only an array part
      can be spelled so. */
  lemma RequiredPathIff(f: FieldSpec, data: Json)
    requires f.path != [] && IsPlain(f.path[..|f.path| - 1]) && Resolve(data, f.path) == Ok([])
    ensures IsMissingKey(data, Declared(f.path)) <==>
            Follow(data, Declared(f.path[..|f.path| - 1])).Some? && Follow(data, Declared(f.path)) == None
    ensures !f.path[|f.path| - 1].isArray ==> Follow(data, Declared(f.path)) == None
  {
    hide Resolve, Matches, Follow, IsPlain;
    var front, at := f.path[..|f.path| - 1], Declared(f.path);
    assert at[..|at| - 1] == Declared(front);
    assert at == Declared(front) + [at[|at| - 1]];
    PlainMatches(front, Declared(front));
    FollowChild(data, Declared(front), at[|at| - 1]);
    if Follow(data, Declared(front)).Some? {
      ContainersFit(data, f.path, |front|, Declared(front));
    }
    if !f.path[|f.path| - 1].isArray {
      PlainSnoc(f.path);
      PlainMatches(f.path, at);
      ResolveIsComplete(data, f.path);
    }
  }

  lemma PlainSnoc(path: Path)
    requires path != [] && IsPlain(path[..|path| - 1]) && !path[|path| - 1].isArray
    ensures IsPlain(path)
  {
    forall i | 0 <= i < |path| ensures !path[i].isArray {
      if i < |path| - 1 {
        assert path[..|path| - 1][i] == path[i];
      }
    }
  }

  // Required keys of array items.

  lemma KeysOfSnoc(texts: seq<string>, k: nat)
    requires k < |texts|
    ensures KeysOf(texts[..k + 1]) == KeysOf(texts[..k]) + [Key(texts[k])]
  {
  }

  lemma KeysShift(at: Location, texts: seq<string>, k: nat)
    requires 1 <= k <= |texts|
    ensures at + KeysOf(texts[..k]) == at + [Key(texts[0])] + KeysOf(texts[1..][..k - 1])
  {
    assert texts[..k] == [texts[0]] + texts[1..][..k - 1];
  }

  lemma NoKeys(at: Location, texts: seq<string>)
    ensures at + KeysOf(texts[..0]) == at && texts[..|texts|] == texts
  {
  }

  /** A chain of keys below a value, and the first of them that is missing. */
  lemma {:induction false} MissingBelowIff(data: Json, at: Location, v: Json, texts: seq<string>) returns (k: nat)
    requires Follow(data, at) == Some(v)
    ensures MissingBelow(v, at, texts) == None <==> Follow(data, at + KeysOf(texts)).Some?
    ensures MissingBelow(v, at, texts).Some? ==>
              && k < |texts| && MissingBelow(v, at, texts) == Some(at + KeysOf(texts[..k + 1]))
              && Follow(data, at + KeysOf(texts[..k])).Some? && Follow(data, at + KeysOf(texts[..k + 1])) == None
    decreases |texts|
  {
    hide KeysOf, Follow;
    k := 0;
    NoKeys(at, texts);
    if texts != [] {
      var below, rest := at + [Key(texts[0])], texts[1..];
      FollowChild(data, at, Key(texts[0]));
      NoKeys(below, rest);
      KeysShift(at, texts, |texts|);
      KeysShift(at, texts, 1);
      if v.At(texts[0]) == None {
        NothingFurther(data, below, KeysOf(rest));
      } else {
        k := MissingBelowIff(data, below, v.At(texts[0]).value, rest);
        k := k + 1;
        if k < |texts| {
          KeysShift(at, texts, k);
          KeysShift(at, texts, k + 1);
        }
      }
    }
  }

  lemma {:induction false} NothingFurther(data: Json, at: Location, more: Location)
    requires Follow(data, at) == None
    ensures Follow(data, at + more) == None
    decreases |more|
  {
    if more == [] {
      assert at + more == at;
    } else {
      NothingFurther(data, at, more[..|more| - 1]);
      assert at + more == at + more[..|more| - 1] + [more[|more| - 1]];
      FollowChild(data, at + more[..|more| - 1], more[|more| - 1]);
    }
  }

  /** The `n`-th item of the first array of the path, and the keys required below it. */
  function ItemAt(path: Path, i: nat, n: nat): Location
    requires i < |path|
  {
    Keys(path[..i + 1]) + [Index(n)]
  }

  function RequiredBelow(path: Path, i: nat): seq<string>
    requires i < |path|
  {
    Texts(path[i + 1..])
  }

  lemma {:induction false} MissingInItemsIff(data: Json, at: Location, items: seq<Json>, n: nat, texts: seq<string>)
    requires Follow(data, at) == Some(JList(items)) && n <= |items|
    ensures MissingInItems(items[..n], at, texts) == None <==>
            forall m: nat | m < n :: Follow(data, at + [Index(m)] + KeysOf(texts)).Some?
    ensures MissingInItems(items[..n], at, texts).Some? ==>
              exists m: nat | m < n :: MissingBelow(items[m], at + [Index(m)], texts) == MissingInItems(items[..n], at, texts)
  {
    hide MissingBelow, KeysOf;
    if n > 0 {
      assert items[..n][..n - 1] == items[..n - 1];
      MissingInItemsIff(data, at, items, n - 1, texts);
      FollowChild(data, at, Index(n - 1));
      var k := MissingBelowIff(data, at + [Index(n - 1)], items[n - 1], texts);
    }
  }

  /** The requirement is met exactly when every item of the first array has the chain of keys spelled
      like the rest of the declared path. */
  lemma ItemRequirementIff(data: Json, path: Path, i: nat)
    requires SplitAt(path) == Some(i)
    ensures FirstMissing(data, path) == None <==>
            forall n: nat | Follow(data, ItemAt(path, i, n)).Some? ::
              Follow(data, ItemAt(path, i, n) + KeysOf(RequiredBelow(path, i))).Some?
  {
    hide MissingInItems, KeysOf, Keys, Follow;
    var at, texts := Keys(path[..i + 1]), RequiredBelow(path, i);
    forall n: nat
      ensures Follow(data, ItemAt(path, i, n)).Some? <==>
              Follow(data, at).Some? && Follow(data, at).value.JList? && n < |Follow(data, at).value.items|
    {
      FollowChild(data, at, Index(n));
    }
    if Follow(data, at).Some? && Follow(data, at).value.JList? {
      var items := Follow(data, at).value.items;
      MissingInItemsIff(data, at, items, |items|, texts);
      assert items[..|items|] == items;
      if FirstMissing(data, path) == None {
        forall n: nat | n < |items| ensures Follow(data, ItemAt(path, i, n) + KeysOf(texts)).Some? {
          assert Follow(data, at + [Index(n)] + KeysOf(texts)).Some?;
        }
      } else {
        var m: nat :| m < |items| && Follow(data, at + [Index(m)] + KeysOf(texts)) == None;
        assert Follow(data, ItemAt(path, i, m) + KeysOf(texts)) == None;
      }
    }
  }

  lemma ReportedMissing(data: Json, path: Path, i: nat) returns (n: nat, k: nat)
    requires SplitAt(path) == Some(i) && FirstMissing(data, path).Some?
    ensures var texts, at := RequiredBelow(path, i), ItemAt(path, i, n);
            && k < |texts| && FirstMissing(data, path) == Some(at + KeysOf(texts[..k]) + [Key(texts[k])])
            && Follow(data, at + KeysOf(texts[..k])).Some? && Follow(data, at + KeysOf(texts[..k]) + [Key(texts[k])]) == None
  {
    hide Keys, KeysOf, Follow, MissingBelow, MissingInItems, SplitAt;
    var at, texts := Keys(path[..i + 1]), RequiredBelow(path, i);
    var items := Follow(data, at).value.items;
    MissingInItemsIff(data, at, items, |items|, texts);
    assert items[..|items|] == items;
    var m: nat :| m < |items| && MissingBelow(items[m], at + [Index(m)], texts) == FirstMissing(data, path);
    FollowChild(data, at, Index(m));
    n := m;
    k := MissingBelowIff(data, ItemAt(path, i, n), items[n], texts);
    KeysOfSnoc(texts, k);
    assert ItemAt(path, i, n) + KeysOf(texts[..k + 1]) == ItemAt(path, i, n) + KeysOf(texts[..k]) + [Key(texts[k])];
  }

  lemma MissingKeyOf(data: Json, parent: Location, key: string)
    requires Follow(data, parent).Some? && Follow(data, parent).value.JObject? && Follow(data, parent + [Key(key)]) == None
    ensures IsMissingKey(data, parent + [Key(key)])
  {
    FollowChild(data, parent, Key(key));
    assert (parent + [Key(key)])[..|parent|] == parent;
  }

  /** What is reported is a key that an object of the document misses, unless it lies below another array
      of the path. */
  lemma MissingItemKey(data: Json, path: Path, i: nat)
    requires SplitAt(path) == Some(i) && Resolve(data, path).Ok? && FirstMissing(data, path).Some?
    requires forall j | i < j < |FirstMissing(data, path).value| - 2 && j < |path| :: !path[j].isArray
    ensures IsMissingKey(data, FirstMissing(data, path).value)
  {
    hide Resolve, Matches, Keys, KeysOf, Follow, FirstMissing, IsMissingKey, SplitAt, IsPlain;
    var n, k := ReportedMissing(data, path, i);
    var parent := ItemAt(path, i, n) + KeysOf(RequiredBelow(path, i)[..k]);
    MissingLength(path, i, n, k);
    PlainPart(path, i, k);
    ItemKeysMatch(path, i, n, k);
    ContainersFit(data, path, i + 1 + k, parent);
    MissingKeyOf(data, parent, RequiredBelow(path, i)[k]);
  }

  lemma MissingLength(path: Path, i: nat, n: nat, k: nat)
    requires i < |path| && k < |RequiredBelow(path, i)|
    ensures |ItemAt(path, i, n) + KeysOf(RequiredBelow(path, i)[..k]) + [Key(RequiredBelow(path, i)[k])]| == i + k + 3
    ensures i + 1 + k < |path|
  {
  }

  lemma PlainPart(path: Path, i: nat, k: nat)
    requires i + 1 + k <= |path| && forall j | i < j < i + k + 1 :: !path[j].isArray
    ensures IsPlain(path[i + 1..i + 1 + k])
  {
  }

  lemma {:induction false} PlainKeysMatch(path: Path)
    requires IsPlain(path)
    ensures Matches(Keys(path), path)
  {
    if path != [] {
      var front, last := path[..|path| - 1], path[|path| - 1];
      PlainKeysMatch(front);
      assert Keys(path) == Keys(front) + [Key(last.key)];
    }
  }

  lemma ItemMatches(path: Path, i: nat, n: nat)
    requires SplitAt(path) == Some(i)
    ensures Matches(ItemAt(path, i, n), path[..i + 1])
  {
    var at := ItemAt(path, i, n);
    PlainKeysMatch(path[..i]);
    assert Keys(path[..i + 1]) == Keys(path[..i]) + [Key(path[i].key)];
    assert path[..i + 1] == path[..i] + [path[i]];
    assert IsBelow(at, Keys(path[..i]), path[i]);
    MatchesSnoc(at, path[..i], path[i]);
  }

  lemma {:induction false} ItemKeysMatch(path: Path, i: nat, n: nat, k: nat)
    requires SplitAt(path) == Some(i) && i + 1 + k <= |path| && IsPlain(path[i + 1..i + 1 + k])
    ensures Matches(ItemAt(path, i, n) + KeysOf(RequiredBelow(path, i)[..k]), path[..i + 1 + k])
    decreases k
  {
    hide Matches, SplitAt, Keys;
    var at := ItemAt(path, i, n) + KeysOf(RequiredBelow(path, i)[..k]);
    if k == 0 {
      assert at == ItemAt(path, i, n);
      ItemMatches(path, i, n);
    } else {
      var before := ItemAt(path, i, n) + KeysOf(RequiredBelow(path, i)[..k - 1]);
      assert path[i + 1..i + k] == path[i + 1..i + 1 + k][..k - 1];
      ItemKeysMatch(path, i, n, k - 1);
      KeysOfSnoc(RequiredBelow(path, i), k - 1);
      assert path[i + 1..][k - 1] == path[i + k] == path[i + 1..i + 1 + k][k - 1];
      assert at == before + [Key(path[i + k].key)];
      assert path[..i + 1 + k] == path[..i + k] + [path[i + k]];
      MatchesSnoc(at, path[..i + k], path[i + k]);
    }
  }

  lemma ChainBreaks(data: Json, at: Location, texts: seq<string>, k: nat)
    requires k < |texts| && Follow(data, at + KeysOf(texts[..k]) + [Key(texts[k])]) == None
    ensures Follow(data, at + KeysOf(texts)) == None
  {
    hide Follow, KeysOf;
    var broken, more := at + KeysOf(texts[..k]) + [Key(texts[k])], KeysOf(texts[k + 1..]);
    NothingFurther(data, broken, more);
    assert at + KeysOf(texts) == broken + more by {
      KeysOfSplit(texts, k);
    }
  }

  lemma KeysOfSplit(texts: seq<string>, k: nat)
    requires k < |texts|
    ensures KeysOf(texts) == KeysOf(texts[..k]) + [Key(texts[k])] + KeysOf(texts[k + 1..])
  {
  }

  /** A second array level below the first is looked up by its bracketed name. A document that never
      spells a key that way is rejected as soon as the outer array has an item, whatever it holds. */
  lemma NestedArraysAreRejected(f: FieldSpec, data: Json, fmt: Formats, i: nat, j: nat, n: nat)
    requires f.requiredInItem && SplitAt(f.path) == Some(i) && i < j < |f.path| && f.path[j].isArray
    requires forall at: Location :: Follow(data, at + [Key(f.path[j].Text())]) == None
    requires Follow(data, ItemAt(f.path, i, n)).Some?
    ensures ValidateField(f, data, fmt).Some?
  {
    hide Resolve, FirstMissing, RejectValues, Declared, Follow, KeysOf, ItemAt;
    var texts := RequiredBelow(f.path, i);
    assert texts[j - i - 1] == f.path[j].Text();
    ChainBreaks(data, ItemAt(f.path, i, n), texts, j - i - 1);
    ItemRequirementIff(data, f.path, i);
  }

  /** The same holds for the path reported for a required field below an array: it is spelled with its
      brackets, and leads nowhere in a document that spells no key that way. */
  lemma BracketedRequirementLeadsNowhere(path: Path, data: Json, j: nat)
    requires j + 1 < |path| && path[j].isArray
    requires forall at: Location :: Follow(data, at + [Key(path[j].Text())]) == None
    ensures Follow(data, Declared(path)) == None && !IsMissingKey(data, Declared(path))
  {
    hide Follow, KeysOf;
    var texts := Texts(path);
    var front := texts[..|texts| - 1];
    assert texts[j] == path[j].Text() && front[j] == texts[j];
    ChainBreaks(data, [], texts, j);
    ChainBreaks(data, [], front, j);
    assert [] + KeysOf(texts) == KeysOf(texts) && [] + KeysOf(front) == KeysOf(front);
    KeysOfFront(texts);
  }

  lemma KeysOfFront(texts: seq<string>)
    requires texts != []
    ensures |KeysOf(texts)| == |texts| && KeysOf(texts)[..|texts| - 1] == KeysOf(texts[..|texts| - 1])
  {
  }

  // Concrete inputs.

  function Blank(path: Path, t: FieldType): FieldSpec {
    FieldSpec(path, t, false, false, None, {}, {}, None, false, None, None, None, None, None, None, {}, false, None)
  }

  lemma ResolveTwo(data: Json, a: Part, b: Part)
    ensures var first := Expand(Found([], data), a);
            Resolve(data, [a, b]) == if first.Err? then first else ExpandAll(first.value, b)
  {
    assert [a, b][..1] == [a] && [a][..0] == [];
    ExpandSingle(Found([], data), a);
    assert Resolve(data, [a]) == Expand(Found([], data), a);
  }

  lemma ExpandSingle(found: Found, part: Part)
    ensures ExpandAll([found], part) == Expand(found, part)
  {
    assert [found][..0] == [];
    if Expand(found, part).Ok? {
      assert [] + Expand(found, part).value == Expand(found, part).value;
    }
  }

  function SamplePath(): Path {
    [Part("a", false), Part("b", false)]
  }

  /** A required key of a missing object is reported where nothing is: `data.a.b` in an empty document. */
  lemma NestedRequirementLeadsNowhere(isSecret: string -> bool, fmt: Formats)
    requires !isSecret("a") && !isSecret("b")
    ensures exists f, data :: IsAllowed(f, isSecret) && ValidateField(f, data, fmt).Some?
                              && !IsMissingKey(data, ValidateField(f, data, fmt).value.at)
                              && Follow(data, ValidateField(f, data, fmt).value.at) == None
  {
    hide Resolve, Expand, ExpandAll;
    var f, data := Blank(SamplePath(), StringType).(required := true), JObject(map[]);
    NothingResolved(data);
    var at := Declared(SamplePath());
    assert at == [Key("a"), Key("b")] && at[..1] == [Key("a")] && at[..1][..0] == [];
    assert Follow(data, at[..1]) == None;
    assert ValidateField(f, data, fmt).value.at == at;
  }

  lemma NothingResolved(data: Json)
    requires data == JObject(map[])
    ensures Resolve(data, SamplePath()) == Ok([])
  {
    ResolveTwo(data, Part("a", false), Part("b", false));
  }

  /** A timestamp below an object is rejected with a type mismatch it does not publish when the object
      is something else. */
  lemma ContainerFaultIsUnpublished(isSecret: string -> bool, fmt: Formats, hasTypeContract: bool)
    requires !isSecret("a") && !isSecret("b")
    ensures exists f, data :: IsAllowed(f, isSecret) && ValidateField(f, data, fmt).Some?
                              && !Publishes(f, hasTypeContract, ValidateField(f, data, fmt).value.code)
  {
    hide Resolve, Expand, ExpandAll;
    var f, data := Blank(SamplePath(), DatetimeType), JObject(map["a" := JInt(5)]);
    MismatchResolved(data);
    assert ValidateField(f, data, fmt) == Some(Rejection([Key("a")], TypeMismatch));
  }

  lemma MismatchResolved(data: Json)
    requires data == JObject(map["a" := JInt(5)])
    ensures Resolve(data, SamplePath()) == Err(Rejection([Key("a")], TypeMismatch))
  {
    ResolveTwo(data, Part("a", false), Part("b", false));
    var found := Found([] + [Key("a")], JInt(5));
    assert Expand(Found([], data), Part("a", false)) == Ok([found]);
    ExpandSingle(found, Part("b", false));
    assert found.at == [Key("a")];
  }
}
