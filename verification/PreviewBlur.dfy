/** Exactly which proposals the complete payload, and so its digest, does not tell apart. */
module PreviewBlur {
  import opened Wrappers
  import opened Ordering
  import opened Pointers
  import opened DiffWalk
  import opened DiffFacts
  import opened UpdatePreview

  /** Two proposals for one stored value that differ at most in which of its non-empty mappings they
      empty and which they remove. */
  ghost predicate Blurred(b: Option<Value>, x: Option<Value>, y: Option<Value>)
    decreases b.Some?, Known(b)
  {
    x == y
    || (&& b.Some? && b.value.Mapping? && b.value.fields != map[]
        && IsMappingOrAbsent(x) && IsMappingOrAbsent(y)
        && forall k :: Blurred(Get(b, k), Get(x, k), Get(y, k)))
  }

  // Blurred proposals are walked alike.

  /** Where a non-empty mapping meets a mapping or nothing, the walk is that of its inside, also when
      nothing changed. */
  lemma InsideOnly(b: Option<Value>, x: Option<Value>, v: View, key: string, at: seq<string>)
    requires b.Some? && b.value.Mapping? && b.value.fields != map[] && IsMappingOrAbsent(x)
    requires key in v.Keys() && v.At(key) == Plain(b, x)
    ensures WalkKey(v, key, at) == Walk(Plain(b, x), at + [key])
  {
    hide Walk;
    if Plain(b, x).Unchanged() {
      EmptyIffEqual(Plain(b, x), at + [key]);
    }
  }

  lemma BlurredKeys(b: Option<Value>, x: Option<Value>, y: Option<Value>)
    requires forall k :: Blurred(Get(b, k), Get(x, k), Get(y, k))
    ensures Plain(b, x).Keys() == Plain(b, y).Keys()
  {
    forall k | k !in Fields(b) ensures Get(x, k) == Get(y, k) {
      assert Blurred(Get(b, k), Get(x, k), Get(y, k));
    }
    assert forall k :: k in Fields(x) <==> Get(x, k).Some?;
    assert forall k :: k in Fields(y) <==> Get(y, k).Some?;
  }

  lemma {:induction false} SameKeysSameWalk(v: View, w: View, keys: seq<string>, at: seq<string>)
    requires forall k | k in keys :: k in v.Keys() && k in w.Keys() && WalkKey(v, k, at) == WalkKey(w, k, at)
    ensures WalkKeys(v, keys, at) == WalkKeys(w, keys, at)
  {
    if keys != [] {
      SameKeysSameWalk(v, w, keys[1..], at);
    }
  }

  lemma {:induction false} BlurredWalk(b: Option<Value>, x: Option<Value>, y: Option<Value>, at: seq<string>)
    requires Blurred(b, x, y)
    ensures Walk(Plain(b, x), at) == Walk(Plain(b, y), at)
    decreases b.Some?, Known(b)
  {
    hide WalkKeys, StrLe;
    if x != y {
      BlurredKeys(b, x, y);
      var v, w := Plain(b, x), Plain(b, y);
      forall k | k in v.Keys() ensures WalkKey(v, k, at) == WalkKey(w, k, at) {
        BlurredKey(b, x, y, k, at);
      }
      SameKeysSameWalk(v, w, SortedSet(v.Keys()), at);
    }
  }

  lemma {:induction false} BlurredKey(b: Option<Value>, x: Option<Value>, y: Option<Value>, key: string, at: seq<string>)
    requires b.Some? && b.value.Mapping? && Blurred(Get(b, key), Get(x, key), Get(y, key))
    requires key in Plain(b, x).Keys() && key in Plain(b, y).Keys()
    ensures WalkKey(Plain(b, x), key, at) == WalkKey(Plain(b, y), key, at)
    decreases b.Some?, Known(b), 0
  {
    hide Walk, CanRecurse;
    var v, w := Plain(b, x), Plain(b, y);
    if Get(x, key) != Get(y, key) {
      BlurredWalk(Get(b, key), Get(x, key), Get(y, key), at + [key]);
      InsideOnly(Get(b, key), Get(x, key), v, key, at);
      InsideOnly(Get(b, key), Get(y, key), w, key, at);
    } else {
      assert v.At(key) == w.At(key);
    }
  }

  // Proposals that are reported alike are blurred.

  ghost predicate SameReports(v: View, w: View) {
    forall ks :: (Reports(v, ks) <==> Reports(w, ks)) && (Reports(v, ks) ==> v.AtPath(ks).after == w.AtPath(ks).after)
  }

  /** Nothing is reported at the position itself. */
  ghost predicate Open(v: View) {
    (v.before.None? && v.after.None?) || !Reported(v)
  }

  lemma ReportsBelow(v: View, key: string, ks: seq<string>)
    requires Open(v.At(key))
    ensures Reports(v, [key] + ks) <==> Reports(v.At(key), ks)
    ensures v.AtPath([key] + ks) == v.At(key).AtPath(ks)
  {
    hide CanRecurse;
    var c := v.At(key);
    ReportsStep(v, [key] + ks);
    assert ([key] + ks)[1..] == ks;
    if c.before == c.after {
      EqualIsSilent(c, ks);
    }
  }

  lemma SameReportsBelow(v: View, w: View, key: string)
    requires SameReports(v, w) && Open(v.At(key)) && Open(w.At(key))
    ensures SameReports(v.At(key), w.At(key))
  {
    hide Reports, Open;
    forall ks
      ensures Reports(v.At(key), ks) <==> Reports(w.At(key), ks)
      ensures Reports(v.At(key), ks) ==> v.At(key).AtPath(ks).after == w.At(key).AtPath(ks).after
    {
      ReportsBelow(v, key, ks);
      ReportsBelow(w, key, ks);
    }
  }

  lemma ReportedHere(v: View, w: View, key: string)
    requires SameReports(v, w) && !Open(v.At(key))
    ensures v.At(key).after == w.At(key).after
  {
    hide CanRecurse;
    ReportsStep(v, [key]);
    assert Reports(v, [key]);
    assert v.AtPath([key]) == v.At(key) && w.AtPath([key]) == w.At(key);
  }

  /** Blurred below every key means blurred, where nothing is reported at the position itself. */
  lemma BlurredInside(b: Option<Value>, x: Option<Value>, y: Option<Value>)
    requires Open(Plain(b, x)) && Open(Plain(b, y))
    requires forall k :: Blurred(Get(b, k), Get(x, k), Get(y, k))
    ensures Blurred(b, x, y)
  {
    if !(b.Some? && b.value.Mapping? && b.value.fields != map[]) {
      forall k ensures Get(x, k) == Get(y, k) {
        assert Blurred(Get(b, k), Get(x, k), Get(y, k));
      }
      SameFields(x, y);
    }
  }

  lemma SameFields(x: Option<Value>, y: Option<Value>)
    requires forall k :: Get(x, k) == Get(y, k)
    ensures Fields(x) == Fields(y)
  {
    forall k ensures k in Fields(x) <==> k in Fields(y) {
      assert Get(x, k) == Get(y, k);
    }
    forall k | k in Fields(x) ensures Fields(x)[k] == Fields(y)[k] {
      assert Get(x, k) == Get(y, k);
    }
  }

  lemma {:induction false} ReportsBlur(b: Option<Value>, x: Option<Value>, y: Option<Value>)
    requires Open(Plain(b, x)) && Open(Plain(b, y)) && SameReports(Plain(b, x), Plain(b, y))
    ensures Blurred(b, x, y)
    decreases b.Some?, Known(b), x.Some?, Known(x), y.Some?, Known(y)
  {
    hide SameReports, Open;
    var v, w := Plain(b, x), Plain(b, y);
    forall k ensures Blurred(Get(b, k), Get(x, k), Get(y, k)) {
      assert v.At(k) == Plain(Get(b, k), Get(x, k)) && w.At(k) == Plain(Get(b, k), Get(y, k));
      if !Open(v.At(k)) {
        ReportedHere(v, w, k);
      } else if !Open(w.At(k)) {
        SameReportsFlips(v, w);
        ReportedHere(w, v, k);
      } else if Get(x, k) != Get(y, k) {
        SameReportsBelow(v, w, k);
        ReportsBlur(Get(b, k), Get(x, k), Get(y, k));
      }
    }
    BlurredInside(b, x, y);
  }

  lemma SameReportsFlips(v: View, w: View)
    requires SameReports(v, w)
    ensures SameReports(w, v)
  {
    hide Reports;
  }

  // The payload lists the reports with their new values.

  lemma PayloadEntry(before: Option<Value>, after: Option<Value>, enc: Encoders, i: nat) returns (ks: seq<string>)
    requires i < |PreviewOf(Plain(before, after), enc).payload|
    ensures var v := Plain(before, after);
            var e := PreviewOf(v, enc).payload[i];
            Reports(v, ks) && e.path == Pointer(ks) && DecodeSide(e.after.value) == v.AtPath(ks).after
  {
    hide Walk, Reports, Complete, Pointer, Keys, Publish, DecodeSide;
    var v := Plain(before, after);
    CompleteMember(v, enc, Complete(v, enc)[i]);
    var c :| c in Walk(v, []) && Publish(c, enc) == Complete(v, enc)[i];
    ks := c.keys;
    WalkReports(v, [], c);
    assert c.keys[0..] == c.keys;
    PlainBelow(before, after, ks);
    PublishDecodes(c, enc);
    PublishedPointer(c, enc);
  }

  lemma PublishedPointer(c: Change, enc: Encoders)
    ensures Publish(c, enc).semanticPath == Pointer(c.keys)
  {
    hide PublishValue, Pointer;
  }

  lemma SamePayloadSameReports(before: Option<Value>, x: Option<Value>, y: Option<Value>, enc: Encoders, ks: seq<string>)
    requires PreviewOf(Plain(before, x), enc).payload == PreviewOf(Plain(before, y), enc).payload
    requires Reports(Plain(before, x), ks)
    ensures Reports(Plain(before, y), ks) && Plain(before, x).AtPath(ks).after == Plain(before, y).AtPath(ks).after
  {
    hide Reports, PreviewOf, Pointer, DecodeSide;
    var v := Plain(before, x);
    ReportedPathInPayload(v, enc, ks);
    var i :| 0 <= i < |PreviewOf(v, enc).payload| && PreviewOf(v, enc).payload[i].path == Pointer(ks);
    var p := PayloadEntry(before, x, enc, i);
    var q := PayloadEntry(before, y, enc, i);
    PointersDiffer(p, ks);
    PointersDiffer(q, ks);
  }

  /** Two proposals for one stored object share the complete payload, and then the whole preview, exactly
      when they are blurred. */
  lemma SamePayloadIff(before: Value, x: Value, y: Value, enc: Encoders)
    requires before.Mapping? && x.Mapping? && y.Mapping?
    ensures var v, w := PreviewOf(Plain(Some(before), Some(x)), enc), PreviewOf(Plain(Some(before), Some(y)), enc);
            (v.payload == w.payload <==> Blurred(Some(before), Some(x), Some(y))) && (v.payload == w.payload <==> v == w)
  {
    hide Reports, Walk, Complete, Blurred;
    var b := Some(before);
    var v, w := Plain(b, Some(x)), Plain(b, Some(y));
    if Blurred(b, Some(x), Some(y)) {
      BlurredWalk(b, Some(x), Some(y), []);
      SameWalkSamePreview(v, w, enc);
    }
    if PreviewOf(v, enc).payload == PreviewOf(w, enc).payload {
      forall ks
        ensures (Reports(v, ks) <==> Reports(w, ks)) && (Reports(v, ks) ==> v.AtPath(ks).after == w.AtPath(ks).after)
      {
        if Reports(v, ks) {
          SamePayloadSameReports(b, Some(x), Some(y), enc, ks);
        }
        if Reports(w, ks) {
          SamePayloadSameReports(b, Some(y), Some(x), enc, ks);
        }
      }
      ReportsBlur(b, Some(x), Some(y));
    }
  }

  lemma SameWalkSamePreview(v: View, w: View, enc: Encoders)
    requires Walk(v, []) == Walk(w, [])
    ensures PreviewOf(v, enc) == PreviewOf(w, enc)
  {
    hide Walk;
  }

  /** Emptying and removing a non-empty mapping share one preview, although the proposals differ. */
  lemma EmptiedLooksRemoved(before: map<string, Value>, after: map<string, Value>, key: string, enc: Encoders)
    requires key in before && before[key].Mapping? && before[key].fields != map[]
    requires key in after && after[key] == Mapping(map[])
    ensures after - {key} != after
    ensures PreviewOf(Plain(Some(Mapping(before)), Some(Mapping(after))), enc)
            == PreviewOf(Plain(Some(Mapping(before)), Some(Mapping(after - {key}))), enc)
  {
    hide PreviewOf;
    var b, x, y := Some(Mapping(before)), Some(Mapping(after)), Some(Mapping(after - {key}));
    forall k ensures Blurred(Get(b, k), Get(x, k), Get(y, k)) {
      if k == key {
        assert forall j :: Get(Get(x, k), j) == Get(Get(y, k), j) == None;
      }
    }
    assert Blurred(b, x, y);
    assert key !in after - {key};
    SamePayloadIff(Mapping(before), Mapping(after), Mapping(after - {key}), enc);
  }
}
