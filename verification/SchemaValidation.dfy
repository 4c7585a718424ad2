/** What a field rejects, and the violations its published contract names. */
module SchemaValidation {
  import opened JsonValues
  import opened Wrappers
  import opened Ordering
  import opened References
  import opened SchemaFields

  /** Timestamp, address and URL parsing. */
  datatype Formats = Formats(isTimestamp: string -> bool, isIp: string -> bool, isUrl: string -> bool, isSafeUrl: string -> bool)

  // One value.

  /** The type check of `_validate_value`: the violation of a value of the wrong type. */
  function TypeFault(f: FieldSpec, v: Json, fmt: Formats): Option<Violation> {
    match f.fieldType
    case StringType => if v.JText? then None else Some(TypeMismatch)
    case TextType => if v.JText? then None else Some(TypeMismatch)
    case DatetimeType => if v.JText? && fmt.isTimestamp(v.text) then None else Some(InvalidFormat)
    case IntegerType => if v.JInt? then None else Some(TypeMismatch)
    case BooleanType => if v.JBool? then None else Some(TypeMismatch)
    case ObjectType => if v.JObject? then None else Some(TypeMismatch)
    case ArrayType => if v.JList? then None else Some(TypeMismatch)
    case StringOrObjectType => if v.JText? || v.JObject? then None else Some(TypeMismatch)
    case EnumType => if v in f.enumValues then None else Some(ValueNotAllowed)
    case IpType => if v.JText? && fmt.isIp(v.text) then None else Some(InvalidFormat)
    case UrlType =>
      if v.JText? && (if f.forbidUrlCredentials then fmt.isSafeUrl(v.text) else fmt.isUrl(v.text)) then None else Some(InvalidFormat)
    case PortType => if !v.JInt? then Some(TypeMismatch) else if 1 <= v.number <= 65535 then None else Some(ValueOutOfRange)
    case ReferenceType =>
      if !v.JText? then Some(TypeMismatch)
      else
        match Parse(v.text)
        case None => Some(InvalidFormat)
        case Some(reference) => if reference.kind in f.referenceKinds then None else Some(ReferenceKindNotAllowed)
  }

  predicate Under(bound: Option<int>, n: int) {
    bound.Some? && n < bound.value
  }

  predicate Over(bound: Option<int>, n: int) {
    bound.Some? && n > bound.value
  }

  function Unexpected(f: FieldSpec, v: Json): set<string> {
    if v.JObject? && f.allowedKeys != {} then v.fields.Keys - f.allowedKeys else {}
  }

  /** `_validate_value`: the first rejection of a value. */
  function ValidateValue(f: FieldSpec, at: Location, v: Json, fmt: Formats): Option<Rejection> {
    if TypeFault(f, v, fmt).Some? then Some(Rejection(at, TypeFault(f, v, fmt).value))
    else if v.JText? && Under(f.minLength, |v.text|) then Some(Rejection(at, ValueTooShort))
    else if v.JText? && Over(f.maxLength, |v.text|) then Some(Rejection(at, ValueTooLong))
    else if v.JInt? && (Under(f.minimum, v.number) || Over(f.maximum, v.number)) then Some(Rejection(at, ValueOutOfRange))
    else if v.JList? && (Under(f.minItems, |v.items|) || Over(f.maxItems, |v.items|)) then Some(Rejection(at, ValueOutOfRange))
    else if Unexpected(f, v) != {} then Some(Rejection(at + [Key(Least(Unexpected(f, v)))], FieldNotAllowed))
    else if f.literal.Some? && v != f.literal.value then Some(Rejection(at, ValueNotConstant))
    else None
  }

  // The published contract.

  function TypeViolations(t: FieldType): set<Violation> {
    match t
    case ArrayType => {TypeMismatch}
    case BooleanType => {TypeMismatch}
    case DatetimeType => {InvalidFormat}
    case EnumType => {ValueNotAllowed}
    case IntegerType => {TypeMismatch}
    case IpType => {InvalidFormat}
    case ObjectType => {TypeMismatch}
    case PortType => {TypeMismatch, ValueOutOfRange}
    case ReferenceType => {TypeMismatch, InvalidFormat}
    case StringType => {TypeMismatch}
    case StringOrObjectType => {TypeMismatch}
    case TextType => {TypeMismatch}
    case UrlType => {InvalidFormat}
  }

  /** The rules of the field name the violation. */
  predicate Publishes(f: FieldSpec, hasTypeContract: bool, code: Violation) {
    if f.forbiddenMessage.Some? then code == FieldNotAllowed
    else
      || code in TypeViolations(f.fieldType)
      || (code == RequiredFieldMissing && (f.required || f.requiredInItem))
      || (code == ValueNotAllowed && (hasTypeContract || f.enumValues != {}))
      || (code == ReferenceKindNotAllowed && f.referenceKinds != {})
      || (code == ValueNotConstant && f.literal.Some?)
      || (code == ValueTooShort && f.minLength.Some?)
      || (code == ValueTooLong && f.maxLength.Some?)
      || (code == ValueOutOfRange && (f.minItems.Some? || f.maxItems.Some? || f.minimum.Some? || f.maximum.Some?))
      || (code == FieldNotAllowed && f.allowedKeys != {})
  }

  /** `violations.add(code)` under a condition. */
  method AddIf(violations: set<Violation>, condition: bool, code: Violation) returns (r: set<Violation>)
    ensures forall c :: c in r <==> c in violations || (condition && c == code)
  {
    r := if condition then violations + {code} else violations;
  }

  /** `field_violations`; `hasTypeContract` tells whether the interface contract fixes the field's type. */
  method FieldViolations(f: FieldSpec, hasTypeContract: bool) returns (violations: set<Violation>)
    ensures forall code :: code in violations <==> Publishes(f, hasTypeContract, code)
  {
    hide TypeViolations;
    if f.forbiddenMessage.Some? {
      return {FieldNotAllowed};
    }
    violations := AddIf(TypeViolations(f.fieldType), f.required || f.requiredInItem, RequiredFieldMissing);
    violations := AddIf(violations, hasTypeContract, ValueNotAllowed);
    violations := AddIf(violations, f.enumValues != {}, ValueNotAllowed);
    violations := AddIf(violations, f.referenceKinds != {}, ReferenceKindNotAllowed);
    violations := AddIf(violations, f.literal.Some?, ValueNotConstant);
    violations := AddIf(violations, f.minLength.Some?, ValueTooShort);
    violations := AddIf(violations, f.maxLength.Some?, ValueTooLong);
    violations := AddIf(violations, f.minItems.Some? || f.maxItems.Some?, ValueOutOfRange);
    violations := AddIf(violations, f.minimum.Some? || f.maximum.Some?, ValueOutOfRange);
    violations := AddIf(violations, f.allowedKeys != {}, FieldNotAllowed);
  }

  lemma TypeFaultIsPublished(f: FieldSpec, isSecret: string -> bool, v: Json, fmt: Formats)
    requires IsAllowed(f, isSecret) && f.forbiddenMessage == None && TypeFault(f, v, fmt).Some?
    ensures forall hasTypeContract :: Publishes(f, hasTypeContract, TypeFault(f, v, fmt).value)
  {
  }

  /** A rejected value carries a published violation, at its own location or at an unexpected key of it. */
  lemma ValueRejectionIsPublished(f: FieldSpec, isSecret: string -> bool, at: Location, v: Json, fmt: Formats, data: Json)
    requires IsAllowed(f, isSecret) && f.forbiddenMessage == None && Follow(data, at) == Some(v)
    requires ValidateValue(f, at, v, fmt).Some?
    ensures var rejection := ValidateValue(f, at, v, fmt).value;
            && (forall hasTypeContract :: Publishes(f, hasTypeContract, rejection.code))
            && Follow(data, rejection.at).Some?
            && (rejection.at == at || exists key :: key in Unexpected(f, v) && rejection.at == at + [Key(key)])
  {
    hide TypeFault, StrLe;
    if TypeFault(f, v, fmt).Some? {
      TypeFaultIsPublished(f, isSecret, v, fmt);
    } else {
      if Unexpected(f, v) != {} {
        FollowChild(data, at, Key(Least(Unexpected(f, v))));
      }
    }
  }

  // Required keys of array items.

  /** The first part with a `[]` that is followed by another part. */
  function SplitAt(path: Path): (r: Option<nat>)
    ensures r.Some? ==> r.value + 1 < |path| && path[r.value].isArray
    ensures r.Some? ==> forall i | 0 <= i < r.value :: !path[i].isArray
    ensures r == None ==> forall i | 0 <= i < |path| - 1 :: !path[i].isArray
  {
    if |path| < 2 then None
    else if path[0].isArray then Some(0)
    else
      match SplitAt(path[1..])
      case None => None
      case Some(i) => Some(i + 1)
  }

  function Keys(path: Path): Location {
    seq(|path|, i requires 0 <= i < |path| => Key(path[i].key))
  }

  function Texts(path: Path): seq<string> {
    seq(|path|, i requires 0 <= i < |path| => path[i].Text())
  }

  /** The first key of `texts` that is missing below `v`, with the location it is reported at. */
  function MissingBelow(v: Json, at: Location, texts: seq<string>): Option<Location> {
    if texts == [] then None
    else if v.At(texts[0]) == None then Some(at + [Key(texts[0])])
    else MissingBelow(v.At(texts[0]).value, at + [Key(texts[0])], texts[1..])
  }

  function MissingInItems(items: seq<Json>, at: Location, texts: seq<string>): Option<Location> {
    if items == [] then None
    else
      var before := MissingInItems(items[..|items| - 1], at, texts);
      if before.Some? then before
      else MissingBelow(items[|items| - 1], at + [Index(|items| - 1)], texts)
  }

  /** `_first_missing_item_field`. */
  function FirstMissing(data: Json, path: Path): Option<Location> {
    match SplitAt(path)
    case None => None
    case Some(i) =>
      var at := Keys(path[..i + 1]);
      match Follow(data, at)
      case Some(JList(items)) => MissingInItems(items, at, Texts(path[i + 1..]))
      case _ => None
  }

  lemma NoKeysYet(data: Json, path: Path)
    ensures Keys(path[..0]) == [] && Follow(data, []) == Some(data)
  {
  }

  lemma OneKeyMore(data: Json, path: Path, k: nat, parent: Json)
    requires k < |path| && Follow(data, Keys(path[..k])) == Some(parent)
    ensures Keys(path[..k + 1]) == Keys(path[..k]) + [Key(path[k].key)]
    ensures Follow(data, Keys(path[..k + 1])) == parent.At(path[k].key)
  {
    assert Keys(path[..k + 1]) == Keys(path[..k]) + [Key(path[k].key)];
    FollowChild(data, Keys(path[..k]), Key(path[k].key));
  }

  /** `_first_missing_item_field`, with its loops. */
  method FirstMissingItemField(data: Json, path: Path) returns (r: Option<Location>)
    ensures r == FirstMissing(data, path)
  {
    hide Follow, Keys, Texts, MissingInItems, MissingBelow;
    var split := SplitAt(path);
    if split == None {
      return None;
    }
    var parent, rendered: Location := data, [];
    NoKeysYet(data, path);
    for k := 0 to split.value + 1
      invariant rendered == Keys(path[..k]) && Follow(data, rendered) == Some(parent)
    {
      OneKeyMore(data, path, k, parent);
      if !parent.JObject? || path[k].key !in parent.fields {
        NothingBelow(data, path, k, split.value + 1);
        return None;
      }
      parent := parent.fields[path[k].key];
      rendered := rendered + [Key(path[k].key)];
    }
    if !parent.JList? {
      return None;
    }
    r := FirstItemMissing(parent.items, rendered, Texts(path[split.value + 1..]));
  }

  method FirstItemMissing(items: seq<Json>, at: Location, texts: seq<string>) returns (r: Option<Location>)
    ensures r == MissingInItems(items, at, texts)
  {
    hide MissingBelow;
    for index := 0 to |items|
      invariant MissingInItems(items[..index], at, texts) == None
    {
      assert items[..index + 1][..index] == items[..index];
      var missing := MissingOf(items[index], at + [Index(index)], texts);
      if missing.Some? {
        MissingStays(items, at, texts, index + 1);
        return missing;
      }
    }
    assert items[..|items|] == items;
    return None;
  }

  method MissingOf(item: Json, at: Location, texts: seq<string>) returns (r: Option<Location>)
    ensures r == MissingBelow(item, at, texts)
  {
    var current, rendered := item, at;
    for i := 0 to |texts|
      invariant MissingBelow(current, rendered, texts[i..]) == MissingBelow(item, at, texts)
    {
      assert texts[i..][1..] == texts[i + 1..];
      if !current.JObject? || texts[i] !in current.fields {
        return Some(rendered + [Key(texts[i])]);
      }
      current := current.fields[texts[i]];
      rendered := rendered + [Key(texts[i])];
    }
    return None;
  }

  lemma {:induction false} MissingStays(items: seq<Json>, at: Location, texts: seq<string>, i: nat)
    requires i <= |items| && MissingInItems(items[..i], at, texts).Some?
    ensures MissingInItems(items, at, texts) == MissingInItems(items[..i], at, texts)
    decreases |items| - i
  {
    if i < |items| {
      assert items[..i + 1][..i] == items[..i];
      MissingStays(items, at, texts, i + 1);
    } else {
      assert items[..i] == items;
    }
  }

  lemma {:induction false} NothingBelow(data: Json, path: Path, k: nat, n: nat)
    requires k < n <= |path| && Follow(data, Keys(path[..k + 1])) == None
    ensures Follow(data, Keys(path[..n])) == None
    decreases n
  {
    if k + 1 < n {
      NothingBelow(data, path, k, n - 1);
      assert Keys(path[..n]) == Keys(path[..n - 1]) + [Key(path[n - 1].key)];
      FollowChild(data, Keys(path[..n - 1]), Key(path[n - 1].key));
    }
  }
}
