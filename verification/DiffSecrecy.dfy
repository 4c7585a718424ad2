/** What the published diff reveals about values that are rendered as the redaction marker. */
module DiffSecrecy {
  import opened Wrappers
  import opened Ordering
  import opened DiffWalk
  import opened DiffFacts

  /** Two values of one position differ only under positions rendered as the redaction marker. */
  ghost predicate Concealed(a: Option<Value>, b: Option<Value>, rendered: Option<Value>)
    decreases Known(a)
  {
    a == b
    || (a.Some? && b.Some? && match rendered
        case Some(Redacted) => true
        case Some(Mapping(r)) =>
          && a.value.Mapping? && b.value.Mapping? && a.value.fields.Keys == b.value.fields.Keys
          && (forall k | k in a.value.fields ::
                Concealed(Some(a.value.fields[k]), Some(b.value.fields[k]), if k in r then Some(r[k]) else None))
        case Some(Sequence(r)) =>
          && a.value.Sequence? && b.value.Sequence? && |a.value.items| == |b.value.items| == |r|
          && (forall i | 0 <= i < |r| :: Concealed(Some(a.value.items[i]), Some(b.value.items[i]), Some(r[i])))
        case _ => false)
  }

  /** Two proposals against one stored object that look the same once rendered. */
  ghost predicate LookAlike(v: View, w: View) {
    && w == v.(after := w.after)
    && Concealed(v.after, w.after, v.renderedAfter)
  }

  /** At every position both walks look at, both proposals equal the stored value or both differ. */
  ghost predicate SameVisits(v: View, w: View) {
    forall ks | ks != [] && Visited(v, ks) && Visited(w, ks) ::
      v.AtPath(ks).Unchanged() <==> w.AtPath(ks).Unchanged()
  }

  lemma LookAlikeRecurse(v: View, w: View)
    requires LookAlike(v, w)
    ensures CanRecurse(v) <==> CanRecurse(w)
    ensures v.before == w.before && (v.after.Some? <==> w.after.Some?)
  {
  }

  /** Where the walk may enter, looking alike is inherited. */
  lemma LookAlikeBelow(v: View, w: View, key: string)
    requires LookAlike(v, w) && CanRecurse(v)
    ensures v.Keys() == w.Keys() && LookAlike(v.At(key), w.At(key))
  {
  }

  lemma VisitedBelow(v: View, key: string, ks: seq<string>)
    requires key in v.Keys() && Entered(v.At(key)) && Visited(v.At(key), ks)
    ensures Visited(v, [key] + ks) && v.AtPath([key] + ks) == v.At(key).AtPath(ks)
  {
    assert ([key] + ks)[1..] == ks;
  }

  lemma SameVisitsBelow(v: View, w: View, key: string)
    requires SameVisits(v, w) && key in v.Keys() && key in w.Keys()
    requires Entered(v.At(key)) && Entered(w.At(key))
    ensures SameVisits(v.At(key), w.At(key))
  {
    hide Entered;
    forall ks | ks != [] && Visited(v.At(key), ks) && Visited(w.At(key), ks)
      ensures v.At(key).AtPath(ks).Unchanged() <==> w.At(key).AtPath(ks).Unchanged()
    {
      VisitedBelow(v, key, ks);
      VisitedBelow(w, key, ks);
    }
  }

  /** What is published of a change: not the raw values, only whether each side is present. */
  datatype Face = Face(keys: seq<string>, beforePresent: bool, afterPresent: bool,
                       renderedBefore: Option<Value>, renderedAfter: Option<Value>,
                       digestBefore: Option<Value>, digestAfter: Option<Value>)

  function FaceOf(e: Change): Face {
    Face(e.keys, e.view.before.Some?, e.view.after.Some?, e.view.renderedBefore, e.view.renderedAfter,
         e.view.digestBefore, e.view.digestAfter)
  }

  function Faces(s: seq<Change>): (r: seq<Face>)
    ensures |r| == |s| && forall i | 0 <= i < |s| :: r[i] == FaceOf(s[i])
  {
    seq(|s|, i requires 0 <= i < |s| => FaceOf(s[i]))
  }

  lemma FacesJoin(s: seq<Change>, t: seq<Change>)
    ensures Faces(s + t) == Faces(s) + Faces(t)
  {
  }

  /** Proposals that look alike and visit alike are published alike. */
  lemma {:induction false} AlikePublishAlike(v: View, w: View, at: seq<string>)
    requires LookAlike(v, w) && SameVisits(v, w) && v.Keys() == w.Keys()
    requires forall k :: LookAlike(v.At(k), w.At(k))
    ensures Faces(Walk(v, at)) == Faces(Walk(w, at))
    decreases v.before.Some?, Known(v.before), v.after.Some?, Known(v.after), 1, 0
  {
    hide LookAlike, SameVisits;
    AlikeKeys(v, w, SortedSet(v.Keys()), at);
  }

  lemma {:induction false} AlikeKeys(v: View, w: View, keys: seq<string>, at: seq<string>)
    requires LookAlike(v, w) && SameVisits(v, w) && v.Keys() == w.Keys()
    requires forall k :: LookAlike(v.At(k), w.At(k))
    requires forall k | k in keys :: k in v.Keys()
    ensures Faces(WalkKeys(v, keys, at)) == Faces(WalkKeys(w, keys, at))
    decreases v.before.Some?, Known(v.before), v.after.Some?, Known(v.after), 0, |keys|
  {
    hide LookAlike, SameVisits;
    if keys != [] {
      AlikeKey(v, w, keys[0], at);
      AlikeKeys(v, w, keys[1..], at);
      FacesJoin(WalkKey(v, keys[0], at), WalkKeys(v, keys[1..], at));
      FacesJoin(WalkKey(w, keys[0], at), WalkKeys(w, keys[1..], at));
    }
  }

  lemma {:induction false} AlikeKey(v: View, w: View, key: string, at: seq<string>)
    requires SameVisits(v, w) && v.Keys() == w.Keys() && key in v.Keys()
    requires LookAlike(v.At(key), w.At(key))
    ensures Faces(WalkKey(v, key, at)) == Faces(WalkKey(w, key, at))
    decreases v.before.Some?, Known(v.before), v.after.Some?, Known(v.after), 0, 0
  {
    hide CanRecurse, Walk;
    var c, d := v.At(key), w.At(key);
    LookAlikeRecurse(c, d);
    assert c.Unchanged() <==> d.Unchanged() by {
      assert Visited(v, [key]) && Visited(w, [key]);
      assert v.AtPath([key]) == c && w.AtPath([key]) == d;
    }
    if Entered(c) {
      SameVisitsBelow(v, w, key);
      forall k ensures LookAlike(c.At(k), d.At(k)) {
        LookAlikeBelow(c, d, k);
      }
      LookAlikeBelow(c, d, key);
      AlikePublishAlike(c, d, at + [key]);
    }
  }

  /** Two whole proposals: mappings with the same keys, alike below every key. */
  ghost predicate AlikeProposals(v: View, w: View) {
    && LookAlike(v, w) && v.Keys() == w.Keys()
    && forall k :: LookAlike(v.At(k), w.At(k))
  }

  /** Two object proposals whose rendered form is an object are alike when they look alike. */
  lemma ObjectsAlike(v: View, w: View)
    requires LookAlike(v, w)
    requires v.after.Some? && v.after.value.Mapping? && w.after.Some? && w.after.value.Mapping?
    requires v.renderedAfter.Some? && v.renderedAfter.value.Mapping?
    ensures AlikeProposals(v, w)
  {
  }

  lemma {:induction false} AlikeAtPath(v: View, w: View, ks: seq<string>)
    requires AlikeProposals(v, w) && ks != [] && Visited(v, ks) && Visited(w, ks)
    ensures LookAlike(v.AtPath(ks), w.AtPath(ks))
    decreases |ks|
  {
    hide LookAlike, Visited;
    var c, d := v.At(ks[0]), w.At(ks[0]);
    if |ks| == 1 {
      assert ks[1..] == [];
    } else {
      VisitedTail(v, ks);
      VisitedTail(w, ks);
      forall k ensures LookAlike(c.At(k), d.At(k)) {
        LookAlikeBelow(c, d, k);
      }
      LookAlikeBelow(c, d, ks[0]);
      AlikeAtPath(c, d, ks[1..]);
    }
  }

  lemma VisitedTail(v: View, ks: seq<string>)
    requires |ks| > 1 && Visited(v, ks)
    ensures CanRecurse(v.At(ks[0])) && Visited(v.At(ks[0]), ks[1..])
  {
  }

  /** A visited position that changed is reported, or something below it is. */
  lemma {:induction false} ChangedIsReportedBelow(v: View, ks: seq<string>) returns (more: seq<string>)
    requires ks != [] && Visited(v, ks) && !v.AtPath(ks).Unchanged()
    requires v.AtPath(ks).before != v.AtPath(ks).after
    ensures Reports(v, ks + more)
    decreases |ks|
  {
    var c := v.At(ks[0]);
    if |ks| == 1 {
      assert v.AtPath(ks) == c;
      if CanRecurse(c) {
        EnteredDiffer(c);
        DifferenceIsReported(c);
        more :| Reports(c, more);
      } else {
        more := [];
      }
    } else {
      more := ChangedIsReportedBelow(c, ks[1..]);
    }
    ReportsStep(v, ks + more);
    assert (ks + more)[1..] == ks[1..] + more;
  }

  /** Nothing below an unchanged position is reported. */
  lemma {:induction false} UnchangedHidesBelow(v: View, ks: seq<string>, more: seq<string>)
    requires ks != [] && Visited(v, ks) && v.AtPath(ks).Unchanged()
    ensures !Reports(v, ks + more)
    decreases |ks|
  {
    ReportsStep(v, ks + more);
    assert (ks + more)[1..] == ks[1..] + more;
    if |ks| == 1 {
      assert v.AtPath(ks) == v.At(ks[0]);
    } else {
      UnchangedHidesBelow(v.At(ks[0]), ks[1..], more);
    }
  }

  /** Even the bare set of reported positions reveals any difference in which positions changed. */
  lemma SamePositionsVisitAlike(v: View, w: View)
    requires AlikeProposals(v, w)
    requires forall ks :: Reports(v, ks) <==> Reports(w, ks)
    ensures SameVisits(v, w)
  {
    hide Reports, Visited, LookAlike;
    forall ks | ks != [] && Visited(v, ks) && Visited(w, ks)
      ensures v.AtPath(ks).Unchanged() <==> w.AtPath(ks).Unchanged()
    {
      AlikeAtPath(v, w, ks);
      LookAlikeRecurse(v.AtPath(ks), w.AtPath(ks));
      OneSided(v, w, ks);
      OneSided(w, v, ks);
    }
  }

  lemma OneSided(v: View, w: View, ks: seq<string>)
    requires ks != [] && Visited(v, ks) && Visited(w, ks)
    requires forall ks :: Reports(v, ks) <==> Reports(w, ks)
    requires v.AtPath(ks).before == w.AtPath(ks).before
    requires v.AtPath(ks).after.Some? <==> w.AtPath(ks).after.Some?
    ensures v.AtPath(ks).Unchanged() ==> w.AtPath(ks).Unchanged()
  {
    hide Reports, Visited;
    var c, d := v.AtPath(ks), w.AtPath(ks);
    if c.Unchanged() && !d.Unchanged() {
      var more := ChangedIsReportedBelow(w, ks);
      UnchangedHidesBelow(v, ks, more);
    }
  }
}
