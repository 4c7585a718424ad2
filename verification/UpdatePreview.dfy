/** The published preview of one proposed object update: bounded entries, a truncation flag and the
    payload that is hashed into the complete diff digest. */
module UpdatePreview {
  import opened Wrappers
  import opened Ordering
  import opened Pointers
  import opened DiffWalk
  import opened DiffFacts
  import opened DiffSecrecy

  const MAX_ENTRIES := 200
  const PATH_MAX_LENGTH := 512
  const VALUE_MAX_LENGTH := 120

  /** SHA-256 over a path and the canonical JSON text of a value. */
  datatype Encoders = Encoders(sha256: string -> string, json: Value -> string)

  datatype ValueType = AbsentType | NullType | BooleanType | IntegerType | NumberType | StringType | ArrayType | ObjectType

  datatype ValueState = AbsentValue | PlainValue | RedactedValue | TruncatedValue

  /** The canonical semantic projection; `Unprojected` is a present value without a digest side. */
  datatype Semantic =
    | AbsentSemantic
    | Unprojected
    | RedactedSemantic
    | ObjectSemantic(members: map<string, Semantic>)
    | ArraySemantic(elements: seq<Semantic>)
    | ScalarSemantic(valueType: ValueType, value: Value)

  datatype PreviewValue = PreviewValue(state: ValueState, valueType: ValueType, text: Option<string>, semantic: Semantic)

  datatype Operation = Added | Removed | Changed

  datatype Entry = Entry(path: string, exact: bool, operation: Operation, before: PreviewValue, after: PreviewValue,
                         semanticPath: string)

  function TypeOf(value: Value): ValueType {
    match value
    case Null => NullType
    case Boolean(_) => BooleanType
    case Integer(_) => IntegerType
    case Number(_) => NumberType
    case Text(_) => StringType
    case Sequence(_) => ArrayType
    case Mapping(_) => ObjectType
    case Redacted => StringType
  }

  predicate ContainsRedaction(value: Value) {
    match value
    case Redacted => true
    case Mapping(fields) => exists k | k in fields :: ContainsRedaction(fields[k])
    case Sequence(items) => exists i | 0 <= i < |items| :: ContainsRedaction(items[i])
    case _ => false
  }

  /** `_semantic_projection`. */
  function Project(value: Value): Semantic {
    match value
    case Redacted => RedactedSemantic
    case Mapping(fields) => ObjectSemantic(map k | k in fields :: Project(fields[k]))
    case Sequence(items) => ArraySemantic(seq(|items|, i requires 0 <= i < |items| => Project(items[i])))
    case _ => ScalarSemantic(TypeOf(value), value)
  }

  /** Reads a semantic projection back. */
  function Decode(semantic: Semantic): Value {
    match semantic
    case ObjectSemantic(members) => Mapping(map k | k in members :: Decode(members[k]))
    case ArraySemantic(elements) => Sequence(seq(|elements|, i requires 0 <= i < |elements| => Decode(elements[i])))
    case ScalarSemantic(_, value) => value
    case _ => Redacted
  }

  /** The projection collapses the redaction marker and loses nothing else. */
  lemma {:induction false} ProjectionDecodes(value: Value)
    ensures Decode(Project(value)) == value
  {
    match value
    case Mapping(fields) =>
      forall k | k in fields ensures Decode(Project(fields[k])) == fields[k] {
        ProjectionDecodes(fields[k]);
      }
    case Sequence(items) =>
      forall i | 0 <= i < |items| ensures Decode(Project(items[i])) == items[i] {
        ProjectionDecodes(items[i]);
      }
    case _ =>
  }

  function DecodeSide(semantic: Semantic): Option<Value> {
    if semantic.AbsentSemantic? then None else Some(Decode(semantic))
  }

  /** `preview_value`, given the rendered and the digest side. */
  function PublishValue(rendered: Option<Value>, digest: Option<Value>, enc: Encoders): PreviewValue {
    match rendered
    case None => PreviewValue(AbsentValue, AbsentType, None, AbsentSemantic)
    case Some(value) =>
      var semantic := if digest.Some? then Project(digest.value) else Unprojected;
      if ContainsRedaction(value) then PreviewValue(RedactedValue, TypeOf(value), None, semantic)
      else
        var text := if value.Text? then value.text else enc.json(value);
        if |text| > VALUE_MAX_LENGTH
        then PreviewValue(TruncatedValue, TypeOf(value), Some(text[..VALUE_MAX_LENGTH]), semantic)
        else PreviewValue(PlainValue, TypeOf(value), Some(text), semantic)
  }

  function PublishedPath(path: string, enc: Encoders): (string, bool) {
    if |path| <= PATH_MAX_LENGTH then (path, true) else ("/@sha256:" + enc.sha256(path), false)
  }

  function OperationOf(beforePresent: bool, afterPresent: bool): Operation {
    if !beforePresent then Added else if !afterPresent then Removed else Changed
  }

  /** The entry of one reported position; it depends on the published face alone. */
  function PublishFace(f: Face, enc: Encoders): Entry {
    var published := PublishedPath(Pointer(f.keys), enc);
    Entry(published.0, published.1, OperationOf(f.beforePresent, f.afterPresent),
          PublishValue(f.renderedBefore, f.digestBefore, enc), PublishValue(f.renderedAfter, f.digestAfter, enc),
          Pointer(f.keys))
  }

  function Publish(e: Change, enc: Encoders): Entry {
    PublishFace(FaceOf(e), enc)
  }

  function Published(s: seq<Change>, enc: Encoders): seq<Entry> {
    Map(e => Publish(e, enc), s)
  }

  datatype SemanticSide = SemanticSide(state: ValueState, valueType: ValueType, value: Semantic)

  datatype SemanticEntry = SemanticEntry(path: string, operation: Operation, before: SemanticSide, after: SemanticSide)

  function SideOf(v: PreviewValue): SemanticSide {
    SemanticSide(v.state, v.valueType, v.semantic)
  }

  function SemanticOf(e: Entry): SemanticEntry {
    SemanticEntry(e.semanticPath, e.operation, SideOf(e.before), SideOf(e.after))
  }

  /** What `preview_diff` returns; `payload` is the document that is hashed. */
  datatype Preview = Preview(entries: seq<Entry>, truncated: bool, payload: seq<SemanticEntry>)

  function ByPath(): Entry -> Key {
    (e: Entry) => [e.semanticPath]
  }

  function Complete(v: View, enc: Encoders): seq<Entry> {
    SortBy(ByPath(), Published(Walk(v, []), enc))
  }

  function Bound(s: seq<Entry>): seq<Entry> {
    if |s| > MAX_ENTRIES then s[..MAX_ENTRIES] else s
  }

  function PreviewOf(v: View, enc: Encoders): Preview {
    var complete := Complete(v, enc);
    Preview(Bound(complete), |complete| > MAX_ENTRIES, Map(SemanticOf, complete))
  }

  // The walk and the preview, step by step.

  lemma PublishedSplit(v: View, keys: seq<string>, i: nat, at: seq<string>, enc: Encoders)
    requires i < |keys| && forall k | k in keys :: k in v.Keys()
    ensures keys[i] in v.Keys() && forall k | k in keys[i..] :: k in v.Keys()
    ensures forall k | k in keys[i + 1..] :: k in v.Keys()
    ensures Published(WalkKeys(v, keys[i..], at), enc)
            == Published(WalkKey(v, keys[i], at), enc) + Published(WalkKeys(v, keys[i + 1..], at), enc)
  {
    assert keys[i..][0] == keys[i] && keys[i..][1..] == keys[i + 1..];
  }

  /** `_walk`. */
  method WalkEntries(v: View, path: string, ghost at: seq<string>, enc: Encoders) returns (entries: seq<Entry>)
    requires path == Pointer(at)
    ensures entries == Published(Walk(v, at), enc)
    decreases v.before.Some?, Known(v.before), v.after.Some?, Known(v.after), 1, 1
  {
    hide WalkKeys, Published, Pointer, StrLe;
    entries := WalkListEntries(v, SortedSet(v.Keys()), path, at, enc);
  }

  /** Its loop over the sorted keys. */
  method WalkListEntries(v: View, keys: seq<string>, path: string, ghost at: seq<string>, enc: Encoders)
    returns (entries: seq<Entry>)
    requires path == Pointer(at) && forall k | k in keys :: k in v.Keys()
    ensures entries == Published(WalkKeys(v, keys, at), enc)
    decreases v.before.Some?, Known(v.before), v.after.Some?, Known(v.after), 1, 0
  {
    hide WalkKeys, WalkKey, Published, Pointer, View.Keys, Fields;
    entries := [];
    ghost var all := Published(WalkKeys(v, keys, at), enc);
    assert keys[0..] == keys;
    for i := 0 to |keys|
      invariant forall k | k in keys[i..] :: k in v.Keys()
      invariant entries + Published(WalkKeys(v, keys[i..], at), enc) == all
    {
      PublishedSplit(v, keys, i, at, enc);
      var found := WalkKeyEntries(v, keys[i], path, at, enc);
      ghost var rest := Published(WalkKeys(v, keys[i + 1..], at), enc);
      assert entries + (found + rest) == (entries + found) + rest;
      entries := entries + found;
    }
    NoKeysNoChanges(v, keys[|keys|..], at, enc);
  }

  /** One round of its loop. */
  method WalkKeyEntries(v: View, key: string, path: string, ghost at: seq<string>, enc: Encoders)
    returns (entries: seq<Entry>)
    requires path == Pointer(at) && key in v.Keys()
    ensures entries == Published(WalkKey(v, key, at), enc)
    decreases v.before.Some?, Known(v.before), v.after.Some?, Known(v.after), 0, 0
  {
    hide Segment, Walk, PublishedPath, PublishValue, PublishFace;
    var field := path + "/" + Segment(key);
    assert (at + [key])[..|at|] == at;
    assert field == Pointer(at + [key]);
    var c := v.At(key);
    if c.Unchanged() {
      return [];
    }
    if CanRecurse(c) {
      entries := WalkEntries(c, field, at + [key], enc);
      return;
    }
    ghost var change := Change(at + [key], c);
    entries := [EntryAt(field, c, enc, change)];
    assert Published([change], enc) == [Publish(change, enc)];
  }

  lemma NoKeysNoChanges(v: View, keys: seq<string>, at: seq<string>, enc: Encoders)
    requires keys == []
    ensures Published(WalkKeys(v, keys, at), enc) == []
  {
  }

  /** The entry the walk appends for a position it does not enter. */
  function EntryAt(field: string, c: View, enc: Encoders, ghost change: Change): (e: Entry)
    requires field == Pointer(change.keys) && c == change.view
    ensures e == Publish(change, enc)
  {
    var published := PublishedPath(field, enc);
    Entry(published.0, published.1, OperationOf(c.before.Some?, c.after.Some?),
          PublishValue(c.renderedBefore, c.digestBefore, enc), PublishValue(c.renderedAfter, c.digestAfter, enc), field)
  }

  /** The two snapshots with their projections: a missing rendered projection is the snapshot itself, a
      missing digest projection the rendered one. */
  function ViewOf(before: Value, after: Value, renderedBefore: Option<Value>, renderedAfter: Option<Value>,
                  digestBefore: Option<Value>, digestAfter: Option<Value>): View {
    var publishedBefore := if renderedBefore.Some? then renderedBefore else Some(before);
    var publishedAfter := if renderedAfter.Some? then renderedAfter else Some(after);
    View(Some(before), Some(after), publishedBefore, publishedAfter,
         if digestBefore.Some? then digestBefore else publishedBefore,
         if digestAfter.Some? then digestAfter else publishedAfter)
  }

  /** `preview_diff` up to the hash of its payload. */
  method PreviewDiff(before: Value, after: Value, renderedBefore: Option<Value>, renderedAfter: Option<Value>,
                     digestBefore: Option<Value>, digestAfter: Option<Value>, enc: Encoders)
    returns (preview: Preview)
    requires before.Mapping? && after.Mapping?
    ensures preview == PreviewOf(ViewOf(before, after, renderedBefore, renderedAfter, digestBefore, digestAfter), enc)
  {
    var view := ViewOf(before, after, renderedBefore, renderedAfter, digestBefore, digestAfter);
    var entries := WalkEntries(view, "", [], enc);
    entries := SortBy(ByPath(), entries);
    preview := Preview(Bound(entries), |entries| > MAX_ENTRIES, Map(SemanticOf, entries));
  }

  // Order.

  lemma PointersDiffer(p: seq<string>, q: seq<string>)
    requires Pointer(p) == Pointer(q)
    ensures p == q
  {
    PointerRoundTrip(p);
    PointerRoundTrip(q);
  }

  /** The pointers of the complete diff are strictly increasing. */
  lemma PathsStrictlyIncrease(v: View, enc: Encoders)
    ensures StrictlySortedBy(ByPath(), Complete(v, enc))
  {
    hide Walk, KeyLe, Pointer, PublishValue;
    var changes := Walk(v, []);
    var entries := Published(changes, enc);
    WalkHasNoRepeats(v, []);
    forall i, j | 0 <= i < j < |entries| ensures ByPath()(entries[i]) != ByPath()(entries[j]) {
      if entries[i].semanticPath == entries[j].semanticPath {
        PointersDiffer(changes[i].keys, changes[j].keys);
      }
    }
    SortByStrict(ByPath(), entries);
  }

  lemma CompleteMember(v: View, enc: Encoders, e: Entry)
    ensures e in Complete(v, enc) <==> exists c | c in Walk(v, []) :: Publish(c, enc) == e
  {
    hide Walk, Publish;
    var changes := Walk(v, []);
    MultisetMembers(Complete(v, enc), Published(changes, enc));
    if e in Published(changes, enc) {
      var i :| 0 <= i < |changes| && Published(changes, enc)[i] == e;
      assert changes[i] in changes;
    }
    if c :| c in changes && Publish(c, enc) == e {
      var i :| 0 <= i < |changes| && changes[i] == c;
      assert Published(changes, enc)[i] == e;
    }
  }

  /** No pointer of the diff names a position inside another one. */
  lemma PathsAreDisjoint(v: View, enc: Encoders, d: Entry, e: Entry)
    requires d in Complete(v, enc) && e in Complete(v, enc)
    requires Keys(d.semanticPath) <= Keys(e.semanticPath)
    ensures d.semanticPath == e.semanticPath
  {
    hide Walk, Complete, Reports, Pointer, Keys;
    CompleteMember(v, enc, d);
    CompleteMember(v, enc, e);
    var c :| c in Walk(v, []) && Publish(c, enc) == d;
    var b :| b in Walk(v, []) && Publish(b, enc) == e;
    PointerRoundTrip(c.keys);
    PointerRoundTrip(b.keys);
    WalkReports(v, [], c);
    WalkReports(v, [], b);
    assert c.keys[0..] == c.keys && b.keys[0..] == b.keys;
    ReportsArePrefixFree(v, c.keys, b.keys);
  }

  // Completeness.

  /** Reads a path through the hashed payload. */
  function PatchedByPayload(payload: seq<SemanticEntry>, before: Option<Value>, keys: seq<string>): Option<Value> {
    if payload == [] then Leaf(before, keys)
    else if Keys(payload[0].path) <= keys
    then Leaf(DecodeSide(payload[0].after.value), keys[|Keys(payload[0].path)|..])
    else PatchedByPayload(payload[1..], before, keys)
  }

  /** A view without separate projections. */
  function Plain(before: Option<Value>, after: Option<Value>): View {
    View(before, after, before, after, before, after)
  }

  lemma {:induction false} PlainBelow(before: Option<Value>, after: Option<Value>, keys: seq<string>)
    ensures Plain(before, after).AtPath(keys)
            == Plain(Plain(before, after).AtPath(keys).before, Plain(before, after).AtPath(keys).after)
    decreases |keys|
  {
    if keys != [] {
      PlainBelow(Get(before, keys[0]), Get(after, keys[0]), keys[1..]);
      assert Plain(before, after).At(keys[0]) == Plain(Get(before, keys[0]), Get(after, keys[0]));
    }
  }

  lemma PublishDecodes(e: Change, enc: Encoders)
    requires e.view == Plain(e.view.before, e.view.after)
    ensures Keys(Publish(e, enc).semanticPath) == e.keys
    ensures DecodeSide(Publish(e, enc).after.semantic) == e.view.after
  {
    hide Keys, Pointer, ContainsRedaction;
    PointerRoundTrip(e.keys);
    if e.view.after.Some? {
      ProjectionDecodes(e.view.after.value);
    }
  }

  lemma {:induction false} PayloadPatches(changes: seq<Change>, payload: seq<SemanticEntry>, before: Option<Value>,
                                          keys: seq<string>)
    requires |payload| == |changes|
    requires forall i | 0 <= i < |changes| ::
               Keys(payload[i].path) == changes[i].keys && DecodeSide(payload[i].after.value) == changes[i].view.after
    ensures PatchedByPayload(payload, before, keys) == Patched(changes, before, keys)
  {
    hide Keys, Leaf, DecodeSide;
    if changes != [] {
      PayloadPatches(changes[1..], payload[1..], before, keys);
    }
  }

  function ByPointer(): Change -> Key {
    (e: Change) => [Pointer(e.keys)]
  }

  /** The complete entries are the published changes, sorted by pointer. */
  lemma CompleteIsPublished(v: View, enc: Encoders)
    ensures Complete(v, enc) == Published(SortBy(ByPointer(), Walk(v, [])), enc)
  {
    hide Walk, PublishValue, Pointer;
    SortCommutes(ByPointer(), e => Publish(e, enc), ByPath(), Walk(v, []));
  }

  /** Without projections the hashed payload, applied to the leaves of the stored snapshot, gives the
      leaves of the proposed one. */
  lemma PayloadRebuildsProposal(before: Value, after: Value, enc: Encoders, keys: seq<string>)
    requires before.Mapping? && after.Mapping?
    ensures PatchedByPayload(PreviewOf(Plain(Some(before), Some(after)), enc).payload, Some(before), keys)
            == Leaf(Some(after), keys)
  {
    hide Walk, Leaf, Patched, PatchedByPayload, Keys, Publish, DecodeSide, Pointer;
    var v := Plain(Some(before), Some(after));
    var changes := SortBy(ByPointer(), Walk(v, []));
    var payload := PreviewOf(v, enc).payload;
    CompleteIsPublished(v, enc);
    MultisetMembers(changes, Walk(v, []));
    forall i | 0 <= i < |changes|
      ensures Keys(payload[i].path) == changes[i].keys && DecodeSide(payload[i].after.value) == changes[i].view.after
    {
      assert changes[i] in Walk(v, []);
      WalkReports(v, [], changes[i]);
      PlainBelow(Some(before), Some(after), changes[i].keys[0..]);
      PublishDecodes(changes[i], enc);
    }
    PayloadPatches(changes, payload, Some(before), keys);
    DiffPatchesBefore(v, changes, keys);
  }

  /** The preview is empty exactly when nothing changed, whatever was redacted. */
  lemma PreviewEmptyIffEqual(v: View, enc: Encoders)
    requires v.before.Some? && v.before.value.Mapping? && v.after.Some? && v.after.value.Mapping?
    ensures PreviewOf(v, enc).entries == [] <==> v.before == v.after
    ensures PreviewOf(v, enc).payload == [] <==> v.before == v.after
  {
    EmptyIffEqual(v, []);
  }

  // Secrecy.

  lemma AlikeComplete(v: View, w: View, enc: Encoders)
    requires Faces(Walk(v, [])) == Faces(Walk(w, []))
    ensures Complete(v, enc) == Complete(w, enc)
  {
    hide Walk, PublishFace;
    var s, t := Walk(v, []), Walk(w, []);
    assert |s| == |Faces(s)| == |Faces(t)| == |t|;
    forall i | 0 <= i < |s| ensures Published(s, enc)[i] == Published(t, enc)[i] {
      assert Faces(s)[i] == Faces(t)[i];
    }
    assert Published(s, enc) == Published(t, enc);
  }

  lemma ReportedPathInPayload(v: View, enc: Encoders, ks: seq<string>)
    ensures Reports(v, ks) <==> exists i | 0 <= i < |PreviewOf(v, enc).payload| :: PreviewOf(v, enc).payload[i].path == Pointer(ks)
  {
    hide Walk, Reports, Complete, Pointer, PublishValue;
    var complete, payload := Complete(v, enc), PreviewOf(v, enc).payload;
    if Reports(v, ks) {
      var c := Change(ks, v.AtPath(ks));
      assert ks[0..] == ks;
      WalkReports(v, [], c);
      CompleteMember(v, enc, Publish(c, enc));
      var i :| 0 <= i < |complete| && complete[i] == Publish(c, enc);
      assert payload[i].path == Pointer(ks);
    }
    if i :| 0 <= i < |payload| && payload[i].path == Pointer(ks) {
      CompleteMember(v, enc, complete[i]);
      var c :| c in Walk(v, []) && Publish(c, enc) == complete[i];
      PointersDiffer(c.keys, ks);
      WalkReports(v, [], c);
      assert c.keys[0..] == c.keys;
    }
  }

  /** Two proposals that differ only under positions rendered as the redaction marker get the same
      entries, flag and payload exactly when they differ from the stored object at the same visited
      positions; the payload alone already tells the two cases apart. */
  lemma IndistinguishableIff(v: View, w: View, enc: Encoders)
    requires AlikeProposals(v, w)
    ensures PreviewOf(v, enc) == PreviewOf(w, enc) <==> SameVisits(v, w)
    ensures PreviewOf(v, enc).payload == PreviewOf(w, enc).payload <==> SameVisits(v, w)
  {
    hide Walk, Reports, Complete, SameVisits, LookAlike;
    if SameVisits(v, w) {
      AlikePublishAlike(v, w, []);
      AlikeComplete(v, w, enc);
    }
    if PreviewOf(v, enc).payload == PreviewOf(w, enc).payload {
      forall ks ensures Reports(v, ks) <==> Reports(w, ks) {
        ReportedPathInPayload(v, enc, ks);
        ReportedPathInPayload(w, enc, ks);
      }
      SamePositionsVisitAlike(v, w);
    }
  }
}
