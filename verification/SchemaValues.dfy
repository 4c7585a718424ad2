/** Which values a field accepts, and what each violation stands for, stated on the value and the field
    specification alone. */
module SchemaValues {
  import opened JsonValues
  import opened Wrappers
  import opened Ordering
  import opened References
  import opened SchemaFields
  import opened SchemaValidation
  import opened SchemaTheorems

  // The type of a value.

  /** The field types that can hold a value of this JSON type; an enumeration may list anything. */
  ghost predicate HasJsonType(t: FieldType, v: Json) {
    match v
    case JText(_) =>
      t.StringType? || t.TextType? || t.DatetimeType? || t.IpType? || t.UrlType? || t.ReferenceType? || t.StringOrObjectType?
    case JInt(_) => t.IntegerType? || t.PortType?
    case JBool(_) => t.BooleanType?
    case JObject(_) => t.ObjectType? || t.StringOrObjectType?
    case JList(_) => t.ArrayType?
    case _ => false
  }

  ghost predicate Refers(text: string, r: TypedReference) {
    r.objectId != "" && text == Render(r)
  }

  ghost predicate IsReference(text: string) {
    exists r :: Refers(text, r)
  }

  ghost predicate RefersToKind(text: string, kinds: set<Kind>) {
    exists r :: Refers(text, r) && r.kind in kinds
  }

  /** The value has the type of the field and meets its format, its enumeration or its kinds of references. */
  ghost predicate FitsType(f: FieldSpec, v: Json, fmt: Formats) {
    if f.fieldType.EnumType? then v in f.enumValues
    else
      && HasJsonType(f.fieldType, v)
      && (f.fieldType.DatetimeType? ==> fmt.isTimestamp(v.text))
      && (f.fieldType.IpType? ==> fmt.isIp(v.text))
      && (f.fieldType.UrlType? && f.forbidUrlCredentials ==> fmt.isSafeUrl(v.text))
      && (f.fieldType.UrlType? && !f.forbidUrlCredentials ==> fmt.isUrl(v.text))
      && (f.fieldType.PortType? ==> 1 <= v.number <= 65535)
      && (f.fieldType.ReferenceType? ==> RefersToKind(v.text, f.referenceKinds))
  }

  // Bounds, keys and the constant.

  ghost predicate AtLeast(n: int, bound: Option<int>) {
    forall b :: bound == Some(b) ==> b <= n
  }

  ghost predicate AtMost(n: int, bound: Option<int>) {
    forall b :: bound == Some(b) ==> n <= b
  }

  ghost predicate LengthFits(f: FieldSpec, v: Json) {
    v.JText? ==> AtLeast(|v.text|, f.minLength) && AtMost(|v.text|, f.maxLength)
  }

  ghost predicate RangeFits(f: FieldSpec, v: Json) {
    && (v.JInt? ==> AtLeast(v.number, f.minimum) && AtMost(v.number, f.maximum))
    && (v.JList? ==> AtLeast(|v.items|, f.minItems) && AtMost(|v.items|, f.maxItems))
  }

  /** The object has a key that the field does not list, though it lists some. */
  ghost predicate HasForeignKey(f: FieldSpec, v: Json, key: string) {
    v.JObject? && f.allowedKeys != {} && key in v.fields && key !in f.allowedKeys
  }

  ghost predicate KeysFit(f: FieldSpec, v: Json) {
    forall key :: !HasForeignKey(f, v, key)
  }

  ghost predicate ConstantMet(f: FieldSpec, v: Json) {
    f.literal == None || f.literal == Some(v)
  }

  ghost predicate ValueFits(f: FieldSpec, v: Json, fmt: Formats) {
    FitsType(f, v, fmt) && LengthFits(f, v) && RangeFits(f, v) && KeysFit(f, v) && ConstantMet(f, v)
  }

  /** What each violation says of the value. */
  ghost predicate Violates(code: Violation, f: FieldSpec, v: Json, fmt: Formats) {
    match code
    case TypeMismatch =>
      !f.fieldType.EnumType? && !f.fieldType.DatetimeType? && !f.fieldType.IpType? && !f.fieldType.UrlType?
      && !HasJsonType(f.fieldType, v)
    case InvalidFormat =>
      || (f.fieldType.DatetimeType? && !(v.JText? && fmt.isTimestamp(v.text)))
      || (f.fieldType.IpType? && !(v.JText? && fmt.isIp(v.text)))
      || (f.fieldType.UrlType? && f.forbidUrlCredentials && !(v.JText? && fmt.isSafeUrl(v.text)))
      || (f.fieldType.UrlType? && !f.forbidUrlCredentials && !(v.JText? && fmt.isUrl(v.text)))
      || (f.fieldType.ReferenceType? && v.JText? && !IsReference(v.text))
    case ValueNotAllowed => f.fieldType.EnumType? && v !in f.enumValues
    case ReferenceKindNotAllowed =>
      f.fieldType.ReferenceType? && v.JText? && IsReference(v.text) && !RefersToKind(v.text, f.referenceKinds)
    case ValueTooShort => FitsType(f, v, fmt) && v.JText? && !AtLeast(|v.text|, f.minLength)
    case ValueTooLong =>
      FitsType(f, v, fmt) && v.JText? && AtLeast(|v.text|, f.minLength) && !AtMost(|v.text|, f.maxLength)
    case ValueOutOfRange =>
      || (f.fieldType.PortType? && v.JInt? && !(1 <= v.number <= 65535))
      || (FitsType(f, v, fmt) && !RangeFits(f, v))
    case FieldNotAllowed => FitsType(f, v, fmt) && !KeysFit(f, v)
    case ValueNotConstant =>
      FitsType(f, v, fmt) && LengthFits(f, v) && RangeFits(f, v) && KeysFit(f, v) && !ConstantMet(f, v)
    case RequiredFieldMissing => false
  }

  // The validator meets this reading.

  lemma ReferenceIff(text: string, kinds: set<Kind>)
    ensures Parse(text).Some? <==> IsReference(text)
    ensures Parse(text).Some? && Parse(text).value.kind in kinds <==> RefersToKind(text, kinds)
  {
    hide Parse, Render;
    forall r ensures Parse(text) == Some(r) <==> Refers(text, r) {
      ParseIffRendered(text, r);
    }
    if Parse(text).Some? {
      assert Refers(text, Parse(text).value);
    }
  }

  lemma TypeFaultIff(f: FieldSpec, v: Json, fmt: Formats)
    ensures TypeFault(f, v, fmt) == None <==> FitsType(f, v, fmt)
    ensures TypeFault(f, v, fmt) == Some(TypeMismatch) <==> Violates(TypeMismatch, f, v, fmt)
    ensures TypeFault(f, v, fmt) == Some(InvalidFormat) <==> Violates(InvalidFormat, f, v, fmt)
    ensures TypeFault(f, v, fmt) == Some(ValueNotAllowed) <==> Violates(ValueNotAllowed, f, v, fmt)
    ensures TypeFault(f, v, fmt) == Some(ReferenceKindNotAllowed) <==> Violates(ReferenceKindNotAllowed, f, v, fmt)
    ensures TypeFault(f, v, fmt) == Some(ValueOutOfRange) <==>
            f.fieldType.PortType? && v.JInt? && !(1 <= v.number <= 65535)
    ensures TypeFault(f, v, fmt).Some? ==>
              TypeFault(f, v, fmt).value
              in {TypeMismatch, InvalidFormat, ValueNotAllowed, ReferenceKindNotAllowed, ValueOutOfRange}
  {
    hide Parse, IsReference, RefersToKind, RangeFits;
    if f.fieldType.ReferenceType? && v.JText? {
      ReferenceIff(v.text, f.referenceKinds);
    }
  }

  lemma BoundsIff(n: int, bound: Option<int>)
    ensures Under(bound, n) <==> !AtLeast(n, bound)
    ensures Over(bound, n) <==> !AtMost(n, bound)
  {
  }

  lemma UnexpectedIff(f: FieldSpec, v: Json)
    ensures Unexpected(f, v) == {} <==> KeysFit(f, v)
    ensures forall key :: key in Unexpected(f, v) <==> HasForeignKey(f, v, key)
  {
    forall key ensures key in Unexpected(f, v) <==> HasForeignKey(f, v, key) {
    }
  }

  /** A value is accepted exactly when it fits. */
  lemma ValueAcceptedIff(f: FieldSpec, at: Location, v: Json, fmt: Formats)
    ensures ValidateValue(f, at, v, fmt) == None <==> ValueFits(f, v, fmt)
  {
    hide TypeFault, Under, Over, AtLeast, AtMost, Unexpected, KeysFit, FitsType, Violates;
    TypeFaultIff(f, v, fmt);
    UnexpectedIff(f, v);
    BoundsOfValue(f, v);
  }

  lemma BoundsOfValue(f: FieldSpec, v: Json)
    ensures v.JText? ==> (Under(f.minLength, |v.text|) <==> !AtLeast(|v.text|, f.minLength))
    ensures v.JText? ==> (Over(f.maxLength, |v.text|) <==> !AtMost(|v.text|, f.maxLength))
    ensures v.JInt? ==> (Under(f.minimum, v.number) <==> !AtLeast(v.number, f.minimum))
    ensures v.JInt? ==> (Over(f.maximum, v.number) <==> !AtMost(v.number, f.maximum))
    ensures v.JList? ==> (Under(f.minItems, |v.items|) <==> !AtLeast(|v.items|, f.minItems))
    ensures v.JList? ==> (Over(f.maxItems, |v.items|) <==> !AtMost(|v.items|, f.maxItems))
  {
    hide Under, Over, AtLeast, AtMost;
    match v
    case JText(text) =>
      BoundsIff(|text|, f.minLength);
      BoundsIff(|text|, f.maxLength);
    case JInt(number) =>
      BoundsIff(number, f.minimum);
      BoundsIff(number, f.maximum);
    case JList(items) =>
      BoundsIff(|items|, f.minItems);
      BoundsIff(|items|, f.maxItems);
    case _ =>
  }

  ghost predicate RejectsWith(code: Violation, f: FieldSpec, at: Location, v: Json, fmt: Formats) {
    ValidateValue(f, at, v, fmt).Some? && ValidateValue(f, at, v, fmt).value.code == code
  }

  /** A value is rejected with a violation exactly when the violation says so of it. */
  lemma ViolationIff(code: Violation, f: FieldSpec, at: Location, v: Json, fmt: Formats)
    ensures RejectsWith(code, f, at, v, fmt) <==> Violates(code, f, v, fmt)
  {
    hide TypeFault, Under, Over, AtLeast, AtMost, Unexpected, KeysFit, FitsType, HasJsonType, IsReference, RefersToKind;
    TypeFaultIff(f, v, fmt);
    UnexpectedIff(f, v);
    BoundsOfValue(f, v);
    ForeignKeysAreOfObjects(f, v);
  }

  lemma ForeignKeysAreOfObjects(f: FieldSpec, v: Json)
    ensures !KeysFit(f, v) ==> v.JObject?
  {
  }

  /** It is rejected where it is, or at its least foreign key. */
  lemma RejectedAt(f: FieldSpec, at: Location, v: Json, fmt: Formats)
    requires ValidateValue(f, at, v, fmt).Some?
    ensures !RejectsWith(FieldNotAllowed, f, at, v, fmt) ==> ValidateValue(f, at, v, fmt).value.at == at
    ensures RejectsWith(FieldNotAllowed, f, at, v, fmt) ==>
              exists key :: HasForeignKey(f, v, key) && ValidateValue(f, at, v, fmt).value.at == at + [Key(key)]
                            && forall other :: HasForeignKey(f, v, other) ==> StrLe(key, other)
  {
    hide TypeFault, Under, Over, Unexpected, HasForeignKey, StrLe;
    UnexpectedIff(f, v);
    TypeFaultIff(f, v, fmt);
  }

  /** A field accepts exactly the documents whose containers fit, that have the field and the keys of its
      items where they are required, and whose every value of the field fits; a forbidden field has none. */
  lemma FieldAcceptedIff(f: FieldSpec, data: Json, fmt: Formats)
    ensures ValidateField(f, data, fmt) == None <==>
            && !HasWrongContainer(data, f.path)
            && (f.required ==> exists at :: IsGiven(f, data, at))
            && (f.requiredInItem ==> FirstMissing(data, f.path) == None)
            && forall at | IsGiven(f, data, at) ::
                 f.forbiddenMessage == None && ValueFits(f, Follow(data, at).value, fmt)
  {
    hide ValidateField, ValidateValue, FirstMissing, Resolve, Matches, Follow, HasWrongContainer, ValueFits;
    AcceptedIff(f, data, fmt);
    ResolutionFailsIff(data, f.path);
    forall at | IsGiven(f, data, at)
      ensures RejectValue(f, Found(at, Follow(data, at).value), fmt) == None <==>
              f.forbiddenMessage == None && ValueFits(f, Follow(data, at).value, fmt)
    {
      ValueAcceptedIff(f, at, Follow(data, at).value, fmt);
    }
  }

  // The violations of a type.

  /** Some value is rejected with the violation by some field of the type. */
  ghost predicate Arises(t: FieldType, code: Violation) {
    exists f: FieldSpec, v, fmt :: f.fieldType == t && TypeFault(f, v, fmt) == Some(code)
  }

  function Bare(t: FieldType): FieldSpec {
    FieldSpec([], t, false, false, None, {}, {}, None, false, None, None, None, None, None, None, {}, false, None)
  }

  function NoFormats(): Formats {
    Formats(_ => false, _ => false, _ => false, _ => false)
  }

  lemma ArisesFor(t: FieldType, v: Json, code: Violation)
    requires TypeFault(Bare(t), v, NoFormats()) == Some(code)
    ensures Arises(t, code)
  {
    assert Bare(t).fieldType == t;
  }

  /** The violations published for a type are exactly those its own check raises, but for the kind of a
      reference, which is published with the kinds. */
  lemma TypeViolationsIff(t: FieldType, code: Violation)
    ensures code in TypeViolations(t) <==> code != ReferenceKindNotAllowed && Arises(t, code)
  {
    hide Parse;
    assert Parse("") == None by {
      EmptyIsNoReference();
    }
    if code in TypeViolations(t) {
      if code == ValueOutOfRange {
        ArisesFor(t, JInt(0), code);
      } else if t.ReferenceType? && code == InvalidFormat {
        ArisesFor(t, JText(""), code);
      } else {
        ArisesFor(t, JNull, code);
      }
    }
  }

  lemma EmptyIsNoReference()
    ensures Parse("") == None
  {
  }
}
