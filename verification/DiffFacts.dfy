/** What the diff walk promises: completeness, disjoint positions, and what it can reveal. */
module DiffFacts {
  import opened Wrappers
  import opened Ordering
  import opened DiffWalk

  // Completeness.

  predicate IsMappingOrAbsent(value: Option<Value>) {
    value.Some? ==> value.value.Mapping?
  }

  /** Something is reported below two sides whose fields differ, and nothing below equal ones. */
  lemma {:induction false} DifferenceIsReported(v: View)
    requires Fields(v.before) != Fields(v.after)
    ensures exists ks :: Reports(v, ks)
    decreases v.before.Some?, Known(v.before), v.after.Some?, Known(v.after)
  {
    hide CanRecurse;
    var k :| k in v.Keys() && Get(v.before, k) != Get(v.after, k) by {
      FieldsDiffer(v);
    }
    var c := v.At(k);
    if CanRecurse(c) {
      EnteredDiffer(c);
      DifferenceIsReported(c);
      var ks :| Reports(c, ks);
      ReportsStep(v, [k] + ks);
      assert ([k] + ks)[1..] == ks;
      assert Reports(v, [k] + ks);
    } else {
      ReportsStep(v, [k]);
      assert Reports(v, [k]);
    }
  }

  lemma FieldsDiffer(v: View)
    requires Fields(v.before) != Fields(v.after)
    ensures exists k :: k in v.Keys() && Get(v.before, k) != Get(v.after, k)
  {
    var b, a := Fields(v.before), Fields(v.after);
    if b.Keys == a.Keys {
      var k :| k in b && b[k] != a[k];
      assert Get(v.before, k) != Get(v.after, k);
    } else {
      var k :| k in b.Keys + a.Keys && (k in b) != (k in a);
      assert Get(v.before, k) != Get(v.after, k);
    }
  }

  lemma EnteredDiffer(c: View)
    requires CanRecurse(c) && c.before != c.after
    ensures Fields(c.before) != Fields(c.after)
  {
  }

  lemma {:induction false} EqualIsSilent(v: View, ks: seq<string>)
    requires Fields(v.before) == Fields(v.after)
    ensures !Reports(v, ks)
  {
    if ks != [] {
      ReportsStep(v, ks);
    }
  }

  /** The complete diff is empty exactly when the two snapshots are equal, whatever the projections. */
  lemma EmptyIffEqual(v: View, at: seq<string>)
    requires v.before.Some? && v.before.value.Mapping? && v.after.Some? && v.after.value.Mapping?
    ensures Walk(v, at) == [] <==> v.before == v.after
  {
    hide Walk, Reports;
    if v.before == v.after {
      if Walk(v, at) != [] {
        var e := Walk(v, at)[0];
        WalkReports(v, at, e);
        EqualIsSilent(v, e.keys[|at|..]);
      }
    } else {
      DifferenceIsReported(v);
      var ks :| Reports(v, ks);
      var e := Change(at + ks, v.AtPath(ks));
      assert e.keys[|at|..] == ks;
      WalkReports(v, at, e);
    }
  }

  // Disjoint positions.

  /** No reported position is a prefix of another. */
  lemma {:induction false} ReportsArePrefixFree(v: View, p: seq<string>, q: seq<string>)
    requires Reports(v, p) && Reports(v, q) && p <= q
    ensures p == q
    decreases |p|
  {
    ReportsStep(v, p);
    ReportsStep(v, q);
    if CanRecurse(v.At(p[0])) {
      ReportsArePrefixFree(v.At(p[0]), p[1..], q[1..]);
      assert p == [p[0]] + p[1..] && q == [q[0]] + q[1..];
    }
  }

  ghost predicate NoRepeatedKeys(s: seq<Change>) {
    forall i, j | 0 <= i < j < |s| :: s[i].keys != s[j].keys
  }

  /** The walk reports no position twice. */
  lemma {:induction false} WalkHasNoRepeats(v: View, at: seq<string>)
    ensures NoRepeatedKeys(Walk(v, at))
    decreases v.before.Some?, Known(v.before), v.after.Some?, Known(v.after), 1, 0
  {
    WalkKeysHasNoRepeats(v, SortedSet(v.Keys()), at);
  }

  lemma {:induction false} WalkKeysHasNoRepeats(v: View, keys: seq<string>, at: seq<string>)
    requires forall k | k in keys :: k in v.Keys()
    requires forall i, j | 0 <= i < j < |keys| :: keys[i] != keys[j]
    ensures NoRepeatedKeys(WalkKeys(v, keys, at))
    decreases v.before.Some?, Known(v.before), v.after.Some?, Known(v.after), 0, |keys|
  {
    hide ReportedBelow, Walk;
    if keys != [] {
      var c := v.At(keys[0]);
      var first, rest := WalkKey(v, keys[0], at), WalkKeys(v, keys[1..], at);
      if Entered(c) {
        WalkHasNoRepeats(c, at + [keys[0]]);
      }
      WalkKeysHasNoRepeats(v, keys[1..], at);
      forall i, j | 0 <= i < |first| && 0 <= j < |rest| ensures first[i].keys != rest[j].keys {
        WalkKeyReport(v, keys[0], at, first[i]);
        WalkKeysReport(v, keys[1..], at, rest[j]);
        assert rest[j].keys[|at|] in keys[1..];
      }
      assert WalkKeys(v, keys, at) == first + rest;
    }
  }

  // Patching.

  function Lookup(value: Option<Value>, keys: seq<string>): Option<Value>
    decreases |keys|
  {
    if keys == [] then value else Lookup(Get(value, keys[0]), keys[1..])
  }

  /** The value at a path when it is not a mapping: the leaves of a snapshot. */
  function Leaf(value: Option<Value>, keys: seq<string>): Option<Value> {
    var found := Lookup(value, keys);
    if found.Some? && found.value.Mapping? then None else found
  }

  lemma {:induction false} LookupSplits(value: Option<Value>, p: seq<string>, q: seq<string>)
    ensures Lookup(value, p + q) == Lookup(Lookup(value, p), q)
    decreases |p|
  {
    if p == [] {
      assert p + q == q;
    } else {
      assert (p + q)[0] == p[0] && (p + q)[1..] == p[1..] + q;
      LookupSplits(Get(value, p[0]), p[1..], q);
    }
  }

  lemma {:induction false} AtPathLooksUp(v: View, keys: seq<string>)
    ensures v.AtPath(keys).before == Lookup(v.before, keys) && v.AtPath(keys).after == Lookup(v.after, keys)
    decreases |keys|
  {
    if keys != [] {
      AtPathLooksUp(v.At(keys[0]), keys[1..]);
    }
  }

  /** Where no reported position lies on the way to a path, both sides have the same leaf there. */
  lemma {:induction false} UnreportedLeavesAgree(v: View, keys: seq<string>)
    requires IsMappingOrAbsent(v.before) && IsMappingOrAbsent(v.after)
    requires forall p | p <= keys :: !Reports(v, p)
    ensures Leaf(v.before, keys) == Leaf(v.after, keys)
    decreases |keys|
  {
    if keys != [] {
      var c := v.At(keys[0]);
      if keys[0] in v.Keys() && !c.Unchanged() {
        ReportsStep(v, [keys[0]]);
        assert !Reports(v, keys[..1]) && keys[..1] == [keys[0]];
        assert CanRecurse(c);
        forall p | p <= keys[1..] ensures !Reports(c, p) {
          ReportsStep(v, [keys[0]] + p);
          assert [keys[0]] + p <= keys;
          assert ([keys[0]] + p)[1..] == p;
          if p == [] {
            assert !Reports(c, p);
          }
        }
        UnreportedLeavesAgree(c, keys[1..]);
      }
    }
  }

  /** Reads a path through a list of changes: below a changed position from the change's new value,
      elsewhere from the old snapshot. */
  function Patched(changes: seq<Change>, before: Option<Value>, keys: seq<string>): Option<Value> {
    if changes == [] then Leaf(before, keys)
    else if changes[0].keys <= keys then Leaf(changes[0].view.after, keys[|changes[0].keys|..])
    else Patched(changes[1..], before, keys)
  }

  lemma {:induction false} PatchedPicks(changes: seq<Change>, before: Option<Value>, keys: seq<string>, e: Change)
    requires e in changes && e.keys <= keys
    requires forall d | d in changes && d.keys <= keys :: d == e
    ensures Patched(changes, before, keys) == Leaf(e.view.after, keys[|e.keys|..])
  {
    if changes[0].keys <= keys {
      assert changes[0] in changes;
    } else {
      assert forall d | d in changes[1..] :: d in changes;
      PatchedPicks(changes[1..], before, keys, e);
    }
  }

  lemma {:induction false} PatchedSkips(changes: seq<Change>, before: Option<Value>, keys: seq<string>)
    requires forall d | d in changes :: !(d.keys <= keys)
    ensures Patched(changes, before, keys) == Leaf(before, keys)
  {
    if changes != [] {
      assert changes[0] in changes;
      PatchedSkips(changes[1..], before, keys);
    }
  }

  lemma OneChangeCovers(v: View, keys: seq<string>, d: Change, e: Change)
    requires d in Walk(v, []) && e in Walk(v, []) && d.keys <= keys && e.keys <= keys
    ensures d == e
  {
    hide Walk, Reports;
    WalkReports(v, [], d);
    WalkReports(v, [], e);
    assert d.keys[0..] == d.keys && e.keys[0..] == e.keys;
    if |d.keys| <= |e.keys| {
      ReportsArePrefixFree(v, d.keys, e.keys);
    } else {
      ReportsArePrefixFree(v, e.keys, d.keys);
    }
  }

  /** The complete diff applied to the leaves of the old snapshot gives the leaves of the new one,
      in whatever order its entries are applied. */
  lemma DiffPatchesBefore(v: View, changes: seq<Change>, keys: seq<string>)
    requires IsMappingOrAbsent(v.before) && IsMappingOrAbsent(v.after)
    requires multiset(changes) == multiset(Walk(v, []))
    ensures Patched(changes, v.before, keys) == Leaf(v.after, keys)
  {
    hide Walk, Patched, Reports, Leaf;
    MultisetMembers(changes, Walk(v, []));
    if e :| e in changes && e.keys <= keys {
      forall d | d in changes && d.keys <= keys ensures d == e {
        OneChangeCovers(v, keys, d, e);
      }
      PatchedPicks(changes, v.before, keys, e);
      WalkReports(v, [], e);
      assert e.keys[0..] == e.keys;
      ReportedLeaf(v, e.keys, keys);
    } else {
      PatchedSkips(changes, v.before, keys);
      forall p | p <= keys ensures !Reports(v, p) {
        if Reports(v, p) {
          var _ := ReportedIsListed(v, changes, p);
        }
      }
      UnreportedLeavesAgree(v, keys);
    }
  }

  lemma ReportedIsListed(v: View, changes: seq<Change>, p: seq<string>) returns (e: Change)
    requires Reports(v, p) && multiset(changes) == multiset(Walk(v, []))
    ensures e in changes && e.keys == p
  {
    hide Walk, Reports;
    e := Change(p, v.AtPath(p));
    assert p[0..] == p;
    WalkReports(v, [], e);
    MultisetMembers(changes, Walk(v, []));
  }

  lemma ReportedLeaf(v: View, p: seq<string>, keys: seq<string>)
    requires p <= keys
    ensures Leaf(v.AtPath(p).after, keys[|p|..]) == Leaf(v.after, keys)
  {
    AtPathLooksUp(v, p);
    LookupSplits(v.after, p, keys[|p|..]);
    assert p + keys[|p|..] == keys;
  }
}
