/** What the entries of a preview say about the two snapshots, read at the position that an entry names. */
module PreviewEntries {
  import opened Wrappers
  import opened Ordering
  import opened Pointers
  import opened DiffWalk
  import opened DiffFacts
  import opened UpdatePreview

  lemma {:induction false} ProjectionsLookUp(v: View, keys: seq<string>)
    ensures v.AtPath(keys).renderedBefore == Lookup(v.renderedBefore, keys)
    ensures v.AtPath(keys).renderedAfter == Lookup(v.renderedAfter, keys)
    ensures v.AtPath(keys).digestBefore == Lookup(v.digestBefore, keys)
    ensures v.AtPath(keys).digestAfter == Lookup(v.digestAfter, keys)
    decreases |keys|
  {
    if keys != [] {
      ProjectionsLookUp(v.At(keys[0]), keys[1..]);
    }
  }

  // Which positions are reported.

  predicate IsMapping(value: Option<Value>) {
    value.Some? && value.value.Mapping?
  }

  ghost predicate Differs(v: View, keys: seq<string>) {
    Lookup(v.before, keys) != Lookup(v.after, keys)
  }

  /** Mappings on both sides, or a non-empty one against nothing, and whatever is there is shown as a mapping. */
  ghost predicate Opens(v: View, keys: seq<string>) {
    var before, after := Lookup(v.before, keys), Lookup(v.after, keys);
    && (before.Some? ==> IsMapping(before) && IsMapping(Lookup(v.renderedBefore, keys)))
    && (after.Some? ==> IsMapping(after) && IsMapping(Lookup(v.renderedAfter, keys)))
    && ((before.Some? && after.Some?) || Fields(before) != map[] || Fields(after) != map[])
  }

  lemma OpensIff(v: View, keys: seq<string>)
    ensures CanRecurse(v.AtPath(keys)) <==> Opens(v, keys)
  {
    AtPathLooksUp(v, keys);
    ProjectionsLookUp(v, keys);
  }

  lemma LookupStep(v: View, keys: seq<string>)
    requires keys != []
    ensures Differs(v, keys) <==> Differs(v.At(keys[0]), keys[1..])
    ensures Opens(v, keys) <==> Opens(v.At(keys[0]), keys[1..])
  {
  }

  /** Every position on the way to `keys` is opened. */
  ghost predicate WayOpens(v: View, keys: seq<string>) {
    forall n | 0 < n < |keys| :: Opens(v, keys[..n])
  }

  lemma WayStep(v: View, keys: seq<string>)
    requires |keys| > 1
    ensures WayOpens(v, keys) <==> Opens(v, [keys[0]]) && WayOpens(v.At(keys[0]), keys[1..])
  {
    hide Opens;
    var c, rest := v.At(keys[0]), keys[1..];
    assert keys[..1] == [keys[0]];
    forall n | 1 < n < |keys| ensures Opens(v, keys[..n]) <==> Opens(c, rest[..n - 1]) {
      LookupStep(v, keys[..n]);
      assert keys[..n][1..] == rest[..n - 1];
    }
    if WayOpens(v, keys) {
      assert Opens(v, keys[..1]);
      forall n | 0 < n < |rest| ensures Opens(c, rest[..n]) {
        assert Opens(v, keys[..n + 1]);
      }
    }
    if Opens(v, [keys[0]]) && WayOpens(c, rest) {
      forall n | 0 < n < |keys| ensures Opens(v, keys[..n]) {
        if n > 1 {
          assert Opens(c, rest[..n - 1]);
        }
      }
    }
  }

  /** A position is reported exactly when the snapshots differ there, it is not opened, and every
      position on the way to it is. */
  lemma {:induction false} ReportedIff(v: View, keys: seq<string>)
    ensures Reports(v, keys) <==> keys != [] && Differs(v, keys) && !Opens(v, keys) && WayOpens(v, keys)
    decreases |keys|
  {
    hide Differs, Opens, WayOpens, Reports, CanRecurse;
    if keys == [] {
      TopIsNotReported(v);
    } else {
      var c, rest := v.At(keys[0]), keys[1..];
      ReportsStep(v, keys);
      OpensIff(v, [keys[0]]);
      assert [keys[0]][1..] == [];
      assert v.AtPath([keys[0]]) == c.AtPath([]) == c;
      if rest == [] {
        SingleStep(v, keys[0]);
        NoWay(v, keys);
        TopIsNotReported(c);
        assert keys == [keys[0]];
      } else {
        LookupStep(v, keys);
        WayStep(v, keys);
        ReportedIff(c, rest);
        DifferenceIsBelow(c, rest);
        DifferenceHasKey(v, keys);
      }
    }
  }

  lemma TopIsNotReported(v: View)
    ensures !Reports(v, [])
  {
  }

  lemma NoWay(v: View, keys: seq<string>)
    requires |keys| == 1
    ensures WayOpens(v, keys)
  {
  }

  lemma SingleStep(v: View, key: string)
    ensures Differs(v, [key]) <==> key in v.Keys() && !v.At(key).Unchanged()
  {
    assert [key][1..] == [];
    assert Lookup(v.before, [key]) == Lookup(Get(v.before, key), []) == Get(v.before, key);
    assert Lookup(v.after, [key]) == Lookup(Get(v.after, key), []) == Get(v.after, key);
  }

  /** Snapshots that agree at a position agree below it. */
  lemma DifferenceIsBelow(v: View, keys: seq<string>)
    ensures Differs(v, keys) ==> !v.Unchanged()
  {
  }

  lemma {:induction false} DifferenceHasKey(v: View, keys: seq<string>)
    requires keys != []
    ensures Differs(v, keys) ==> keys[0] in v.Keys()
    decreases |keys|
  {
    if keys[0] !in v.Keys() {
      NothingBelowNothing(keys[1..]);
    }
  }

  lemma {:induction false} NothingBelowNothing(keys: seq<string>)
    ensures Lookup(None, keys) == None
    decreases |keys|
  {
    if keys != [] {
      NothingBelowNothing(keys[1..]);
    }
  }

  // What a side shows.

  /** One step into a value: a key of a mapping or a place in a sequence. */
  datatype Place = Key(key: string) | Index(i: nat)

  function Inside(value: Value, p: Place): Option<Value> {
    match p
    case Key(k) => if value.Mapping? && k in value.fields then Some(value.fields[k]) else None
    case Index(i) => if value.Sequence? && i < |value.items| then Some(value.items[i]) else None
  }

  predicate MarkerAt(value: Value, way: seq<Place>) {
    if way == [] then value == Redacted
    else Inside(value, way[0]).Some? && MarkerAt(Inside(value, way[0]).value, way[1..])
  }

  /** Some part of the value is the redaction marker. */
  ghost predicate HoldsMarker(value: Value) {
    exists way :: MarkerAt(value, way)
  }

  lemma MarkerOneUp(value: Value, p: Place, part: Value)
    requires Inside(value, p) == Some(part) && HoldsMarker(part)
    ensures HoldsMarker(value)
  {
    var way :| MarkerAt(part, way);
    assert ([p] + way)[1..] == way;
    assert MarkerAt(value, [p] + way);
  }

  lemma {:induction false} RedactionIsMarker(value: Value)
    requires ContainsRedaction(value)
    ensures HoldsMarker(value)
  {
    match value
    case Redacted => assert MarkerAt(value, []);
    case Mapping(fields) =>
      var k :| k in fields && ContainsRedaction(fields[k]);
      RedactionIsMarker(fields[k]);
      MarkerOneUp(value, Key(k), fields[k]);
    case Sequence(items) =>
      var i :| 0 <= i < |items| && ContainsRedaction(items[i]);
      RedactionIsMarker(items[i]);
      MarkerOneUp(value, Index(i), items[i]);
    case _ =>
  }

  lemma {:induction false} MarkerIsRedaction(value: Value, way: seq<Place>)
    requires MarkerAt(value, way)
    ensures ContainsRedaction(value)
    decreases |way|
  {
    if way != [] {
      MarkerIsRedaction(Inside(value, way[0]).value, way[1..]);
    }
  }

  lemma ContainsRedactionIff(value: Value)
    ensures ContainsRedaction(value) <==> HoldsMarker(value)
  {
    if ContainsRedaction(value) {
      RedactionIsMarker(value);
    }
    if way :| MarkerAt(value, way) {
      MarkerIsRedaction(value, way);
    }
  }

  ghost predicate HasType(t: ValueType, value: Option<Value>) {
    && (t.AbsentType? <==> value.None?)
    && (t.NullType? <==> value == Some(Null))
    && (t.BooleanType? <==> value.Some? && value.value.Boolean?)
    && (t.IntegerType? <==> value.Some? && value.value.Integer?)
    && (t.NumberType? <==> value.Some? && value.value.Number?)
    && (t.StringType? <==> value.Some? && (value.value.Text? || value.value.Redacted?))
    && (t.ArrayType? <==> value.Some? && value.value.Sequence?)
    && (t.ObjectType? <==> value.Some? && value.value.Mapping?)
  }

  function FullText(value: Value, enc: Encoders): string {
    if value.Text? then value.text else enc.json(value)
  }

  /** The side of an entry where the published projection holds `rendered` and the digest projection `digest`. */
  ghost predicate Shows(side: PreviewValue, rendered: Option<Value>, digest: Option<Value>, enc: Encoders) {
    && HasType(side.valueType, rendered)
    && (side.state == AbsentValue <==> rendered.None?)
    && (side.state == RedactedValue <==> rendered.Some? && HoldsMarker(rendered.value))
    && (side.text.None? <==> side.state == AbsentValue || side.state == RedactedValue)
    && (side.text.Some? ==> rendered.Some? && side.text.value <= FullText(rendered.value, enc))
    && (side.state == PlainValue ==> |FullText(rendered.value, enc)| <= 120 && |side.text.value| == |FullText(rendered.value, enc)|)
    && (side.state == TruncatedValue ==> |FullText(rendered.value, enc)| > 120 && |side.text.value| == 120)
    && (rendered.Some? && digest.Some? ==> DecodeSide(side.semantic) == digest)
    && (side.semantic == AbsentSemantic <==> rendered.None?)
    && (side.semantic == Unprojected <==> rendered.Some? && digest.None?)
  }

  lemma PublishedShows(rendered: Option<Value>, digest: Option<Value>, enc: Encoders)
    ensures Shows(PublishValue(rendered, digest, enc), rendered, digest, enc)
  {
    hide HoldsMarker, ContainsRedaction;
    if rendered.Some? {
      ContainsRedactionIff(rendered.value);
      if digest.Some? {
        ProjectionDecodes(digest.value);
      }
    }
  }

  // Entries.

  ghost predicate OperationFits(operation: Operation, before: Option<Value>, after: Option<Value>) {
    && (operation == Added <==> before.None?)
    && (operation == Removed <==> after.None?)
    && (operation == Changed <==> before.Some? && after.Some?)
  }

  /** The entry tells what happened at position `keys`. */
  ghost predicate Tells(e: Entry, v: View, keys: seq<string>, enc: Encoders) {
    && e.semanticPath == Pointer(keys)
    && OperationFits(e.operation, Lookup(v.before, keys), Lookup(v.after, keys))
    && Shows(e.before, Lookup(v.renderedBefore, keys), Lookup(v.digestBefore, keys), enc)
    && Shows(e.after, Lookup(v.renderedAfter, keys), Lookup(v.digestAfter, keys), enc)
    && (e.exact <==> |Pointer(keys)| <= 512)
    && e.path == if e.exact then Pointer(keys) else "/@sha256:" + enc.sha256(Pointer(keys))
  }

  lemma PublishTells(v: View, keys: seq<string>, enc: Encoders)
    requires Reports(v, keys)
    ensures Tells(Publish(Change(keys, v.AtPath(keys)), enc), v, keys, enc)
  {
    hide Shows, PublishValue, Pointer, Reports, Opens, WayOpens;
    AtPathLooksUp(v, keys);
    ProjectionsLookUp(v, keys);
    ReportedIff(v, keys);
    PublishedShows(Lookup(v.renderedBefore, keys), Lookup(v.digestBefore, keys), enc);
    PublishedShows(Lookup(v.renderedAfter, keys), Lookup(v.digestAfter, keys), enc);
  }

  /** Every entry of the complete diff tells what happened at one reported position, and every reported
      position has its entry. */
  lemma EntriesTell(v: View, enc: Encoders)
    ensures forall e | e in Complete(v, enc) ::
              exists keys :: Reports(v, keys) && Tells(e, v, keys, enc)
    ensures forall keys | Reports(v, keys) ::
              exists e :: e in Complete(v, enc) && Tells(e, v, keys, enc)
  {
    hide Complete, Walk, Publish, Tells, Reports;
    forall e | e in Complete(v, enc) ensures exists keys :: Reports(v, keys) && Tells(e, v, keys, enc) {
      CompleteMember(v, enc, e);
      var c :| c in Walk(v, []) && Publish(c, enc) == e;
      WalkReports(v, [], c);
      assert c.keys[0..] == c.keys;
      assert c == Change(c.keys, v.AtPath(c.keys));
      PublishTells(v, c.keys, enc);
    }
    forall keys | Reports(v, keys) ensures exists e :: e in Complete(v, enc) && Tells(e, v, keys, enc) {
      var c := Change(keys, v.AtPath(keys));
      WalkReports(v, [], c);
      assert c.keys[0..] == c.keys;
      PublishTells(v, keys, enc);
      CompleteMember(v, enc, Publish(c, enc));
    }
  }

  /** The preview: the hashed payload repeats every entry without its text, in the order of the
      pointers, and the first 200 entries are published. */
  lemma PreviewTells(v: View, enc: Encoders, preview: Preview)
    requires preview == PreviewOf(v, enc)
    ensures |preview.payload| == |Complete(v, enc)|
    ensures forall i | 0 <= i < |preview.payload| ::
              && preview.payload[i].path == Complete(v, enc)[i].semanticPath
              && preview.payload[i].operation == Complete(v, enc)[i].operation
              && preview.payload[i].before == SideOf(Complete(v, enc)[i].before)
              && preview.payload[i].after == SideOf(Complete(v, enc)[i].after)
    ensures preview.entries <= Complete(v, enc)
    ensures preview.truncated <==> |Complete(v, enc)| > 200
    ensures |preview.entries| == if preview.truncated then 200 else |Complete(v, enc)|
  {
    hide Complete, SideOf;
  }

  /** The hashed entry tells what happened at position `keys`, with the text left out. */
  ghost predicate TellsHashed(e: SemanticEntry, v: View, keys: seq<string>) {
    && e.path == Pointer(keys)
    && OperationFits(e.operation, Lookup(v.before, keys), Lookup(v.after, keys))
    && HashedShows(e.before, Lookup(v.renderedBefore, keys), Lookup(v.digestBefore, keys))
    && HashedShows(e.after, Lookup(v.renderedAfter, keys), Lookup(v.digestAfter, keys))
  }

  ghost predicate HashedShows(side: SemanticSide, rendered: Option<Value>, digest: Option<Value>) {
    && HasType(side.valueType, rendered)
    && (side.state == AbsentValue <==> rendered.None?)
    && (side.state == RedactedValue <==> rendered.Some? && HoldsMarker(rendered.value))
    && (rendered.Some? && digest.Some? ==> DecodeSide(side.value) == digest)
  }

  lemma TellingIsHashed(e: Entry, v: View, keys: seq<string>, enc: Encoders)
    requires Tells(e, v, keys, enc)
    ensures TellsHashed(SemanticOf(e), v, keys)
  {
    hide HoldsMarker, HasType, Lookup, Pointer, Decode, FullText, OperationFits;
  }

  /** Each entry of the hashed payload names a reported position and tells what happened there. */
  lemma PayloadTells(v: View, enc: Encoders, preview: Preview, i: nat) returns (keys: seq<string>)
    requires preview == PreviewOf(v, enc) && i < |preview.payload|
    ensures Reports(v, keys) && TellsHashed(preview.payload[i], v, keys)
  {
    hide Complete, Reports, Tells, TellsHashed, SideOf;
    EntriesTell(v, enc);
    var e := Complete(v, enc)[i];
    assert e in Complete(v, enc);
    keys :| Reports(v, keys) && Tells(e, v, keys, enc);
    TellingIsHashed(e, v, keys, enc);
  }

  // The projections of a call.

  /** A missing rendered projection is the snapshot, and a missing digest projection the rendered one; those
      given are used as they are. */
  lemma MissingProjections(before: Value, after: Value, renderedBefore: Value, renderedAfter: Value, digestBefore: Value, digestAfter: Value)
    ensures ViewOf(before, after, Some(renderedBefore), Some(renderedAfter), Some(digestBefore), Some(digestAfter))
            == View(Some(before), Some(after), Some(renderedBefore), Some(renderedAfter), Some(digestBefore), Some(digestAfter))
    ensures ViewOf(before, after, Some(renderedBefore), Some(renderedAfter), None, None)
            == ViewOf(before, after, Some(renderedBefore), Some(renderedAfter), Some(renderedBefore), Some(renderedAfter))
    ensures ViewOf(before, after, None, None, Some(digestBefore), Some(digestAfter))
            == ViewOf(before, after, Some(before), Some(after), Some(digestBefore), Some(digestAfter))
    ensures ViewOf(before, after, None, None, None, None) == Plain(Some(before), Some(after))
  {
  }
}
