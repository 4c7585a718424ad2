/** What each coverage state stands for, read off the entry, the targets and the other entries alone. */
module CoverageStates {
  import opened Wrappers
  import opened Ordering
  import opened SourceCoverage

  predicate Gone(targets: Targets, id: string) {
    id !in targets || !targets[id].found
  }

  /** A mapping leads to no existing object. */
  ghost predicate Dangles(e: Entry, targets: Targets) {
    exists m :: m in e.mappings && Gone(targets, m.objectId)
  }

  ghost predicate TwoPrimaries(mappings: seq<Mapping>) {
    exists i, j :: 0 <= i < j < |mappings| && mappings[i].role == Primary && mappings[j].role == Primary
  }

  /** The mapping at the two places makes a present entry an owner of the object. */
  predicate OwnsAt(entries: seq<Entry>, i: int, k: int, id: string) {
    && 0 <= i < |entries| && entries[i].presence == Present
    && 0 <= k < |entries[i].mappings|
    && entries[i].mappings[k].role == Primary && entries[i].mappings[k].objectId == id
  }

  ghost predicate OwnedTwice(entries: seq<Entry>, id: string) {
    exists i, k, j, l :: (i != j || k != l) && OwnsAt(entries, i, k, id) && OwnsAt(entries, j, l, id)
  }

  ghost predicate SharesObject(e: Entry, entries: seq<Entry>) {
    exists m :: m in e.mappings && m.role == Primary && OwnedTwice(entries, m.objectId)
  }

  ghost predicate SourceMoved(e: Entry) {
    exists m :: m in e.mappings && m.importedFingerprint != e.entryFingerprint
  }

  ghost predicate HasStaleTarget(e: Entry, targets: Targets) {
    exists m :: m in e.mappings && m.objectId in targets && targets[m.objectId].isStale
  }

  /** Present, mapped, and every mapping leads to an existing object. */
  ghost predicate Mapped(e: Entry, targets: Targets) {
    e.presence == Present && e.mappings != [] && !Dangles(e, targets)
  }

  /** Mapped, with at most one primary mapping. */
  ghost predicate Settled(e: Entry, targets: Targets) {
    Mapped(e, targets) && !TwoPrimaries(e.mappings)
  }

  ghost predicate Fits(state: State, e: Entry, entries: seq<Entry>, targets: Targets) {
    match state
    case MissingSource => e.presence == Absent
    case OrphanedCatalogReference => e.presence == Present && Dangles(e, targets)
    case IntentionallyUnmapped => e.presence == Present && e.mappings == [] && e.intent == NoCatalogObject
    case UnmappedOperational => e.presence == Present && e.mappings == [] && e.intent == ExpectObject
    case AmbiguousMapping => Mapped(e, targets) && TwoPrimaries(e.mappings)
    case DuplicateMapping => Settled(e, targets) && SharesObject(e, entries)
    case SourceChangedSinceImport => Settled(e, targets) && !SharesObject(e, entries) && SourceMoved(e)
    case MappedStale =>
      Settled(e, targets) && !SharesObject(e, entries) && !SourceMoved(e) && HasStaleTarget(e, targets)
    case MappedCurrent =>
      Settled(e, targets) && !SharesObject(e, entries) && !SourceMoved(e) && !HasStaleTarget(e, targets)
  }

  // Sorting the mappings keeps the number of primary ones.

  lemma {:induction false} TwiceIn<T>(s: seq<T>, x: T)
    requires multiset(s)[x] > 1
    ensures exists i, j :: 0 <= i < j < |s| && s[i] == x && s[j] == x
  {
    var front, n := s[..|s| - 1], |s| - 1;
    assert s == front + [s[n]];
    if s[n] == x {
      assert x in multiset(front);
      var i :| 0 <= i < |front| && front[i] == x;
      assert s[i] == x && s[n] == x;
    } else {
      TwiceIn(front, x);
      var i, j :| 0 <= i < j < |front| && front[i] == x && front[j] == x;
      assert s[i] == x && s[j] == x;
    }
  }

  lemma TwoPrimariesByCount(s: seq<Mapping>)
    ensures TwoPrimaries(s) <==>
            exists a, b :: a in multiset(s) && b in multiset(s) && a.role == Primary && b.role == Primary
                           && (a != b || multiset(s)[a] > 1)
  {
    if i, j :| 0 <= i < j < |s| && s[i].role == Primary && s[j].role == Primary {
      assert s[i] in multiset(s) && s[j] in multiset(s);
      if s[i] == s[j] {
        RepeatCounts(s, i, j);
      }
    }
    if a, b :| a in multiset(s) && b in multiset(s) && a.role == Primary && b.role == Primary
               && (a != b || multiset(s)[a] > 1) {
      if a == b {
        TwiceIn(s, a);
      } else {
        var i :| 0 <= i < |s| && s[i] == a;
        var j :| 0 <= j < |s| && s[j] == b;
        assert i < j || j < i;
      }
    }
  }

  // The owner counts.

  lemma {:induction false} OwnersInIff(mappings: seq<Mapping>, id: string)
    ensures OwnersIn(mappings, id) > 0 <==>
            exists k :: 0 <= k < |mappings| && mappings[k].role == Primary && mappings[k].objectId == id
    ensures OwnersIn(mappings, id) > 1 <==>
            exists k, l :: 0 <= k < l < |mappings| && mappings[k].role == Primary && mappings[k].objectId == id
                           && mappings[l].role == Primary && mappings[l].objectId == id
  {
    if mappings != [] {
      var front, n := mappings[..|mappings| - 1], |mappings| - 1;
      OwnersInIff(front, id);
      assert forall k | 0 <= k < n :: front[k] == mappings[k];
    }
  }

  lemma OwnsInOne(entries: seq<Entry>, n: nat, id: string)
    requires n < |entries| && entries[n].presence == Present
    ensures OwnersIn(entries[n].mappings, id) > 0 <==> exists k :: OwnsAt(entries, n, k, id)
    ensures OwnersIn(entries[n].mappings, id) > 1 <==>
            exists k, l :: k != l && OwnsAt(entries, n, k, id) && OwnsAt(entries, n, l, id)
  {
    var ms := entries[n].mappings;
    OwnersInIff(ms, id);
    if k :| 0 <= k < |ms| && ms[k].role == Primary && ms[k].objectId == id {
      assert OwnsAt(entries, n, k, id);
    }
    if k, l :| 0 <= k < l < |ms| && ms[k].role == Primary && ms[k].objectId == id
               && ms[l].role == Primary && ms[l].objectId == id {
      assert k != l && OwnsAt(entries, n, k, id) && OwnsAt(entries, n, l, id);
    }
    if k, l :| k != l && OwnsAt(entries, n, k, id) && OwnsAt(entries, n, l, id) {
      assert k < l || l < k;
    }
  }

  lemma OwnsInFront(entries: seq<Entry>, i: int, k: int, id: string)
    requires entries != [] && i != |entries| - 1
    ensures OwnsAt(entries[..|entries| - 1], i, k, id) <==> OwnsAt(entries, i, k, id)
  {
  }

  lemma AbsentOwnsNothing(entries: seq<Entry>, i: int, id: string)
    requires 0 <= i < |entries| && entries[i].presence == Absent
    ensures forall k :: !OwnsAt(entries, i, k, id)
  {
  }

  /** An object counts as owned twice exactly when two primary mappings of present entries name it. */
  lemma {:induction false} OwnersIff(entries: seq<Entry>, id: string)
    ensures Owners(entries, id) > 0 <==> exists i, k :: OwnsAt(entries, i, k, id)
    ensures Owners(entries, id) > 1 <==> OwnedTwice(entries, id)
  {
    hide OwnsAt, OwnersIn;
    if entries == [] {
      NobodyOwns(entries, id);
    } else {
      var front, n := entries[..|entries| - 1], |entries| - 1;
      OwnersIff(front, id);
      forall i, k ensures i != n ==> (OwnsAt(front, i, k, id) <==> OwnsAt(entries, i, k, id)) {
        if i != n {
          OwnsInFront(entries, i, k, id);
        }
      }
      forall i, k ensures OwnsAt(front, i, k, id) ==> i != n {
        FrontIsBefore(front, i, k, id);
      }
      if entries[n].presence == Present {
        OwnsInOne(entries, n, id);
      } else {
        AbsentOwnsNothing(entries, n, id);
      }
    }
  }

  lemma NobodyOwns(entries: seq<Entry>, id: string)
    requires entries == []
    ensures forall i, k :: !OwnsAt(entries, i, k, id)
  {
  }

  lemma FrontIsBefore(entries: seq<Entry>, i: int, k: int, id: string)
    ensures OwnsAt(entries, i, k, id) ==> 0 <= i < |entries|
  {
  }

  // The resolver.

  /** One shown mapping of an entry. */
  ghost predicate TellsMapping(r: ResolvedMapping, m: Mapping, e: Entry, targets: Targets) {
    && r.objectId == m.objectId && r.role == m.role
    && r.importedAt == m.importedAt && r.verifiedAt == m.verifiedAt
    && (r.found <==> !Gone(targets, m.objectId))
    && (r.targetKind.Some? <==> r.found)
    && (r.found ==> r.targetKind.value == targets[m.objectId].kind)
    && (r.sourceChanged <==> m.importedFingerprint != e.entryFingerprint)
  }

  /** The mappings of a row are those of its entry, ordered by object and role. */
  ghost predicate TellsMappings(resolved: seq<ResolvedMapping>, e: Entry, targets: Targets) {
    exists sorted :: multiset(sorted) == multiset(e.mappings) && SortedBy(MappingKey(), sorted) && |sorted| == |resolved|
                     && forall i | 0 <= i < |sorted| :: TellsMapping(resolved[i], sorted[i], e, targets)
  }

  lemma ResolvedTells(e: Entry, targets: Targets)
    ensures TellsMappings(ResolveMappings(e, targets), e, targets)
  {
    hide KeyLe, SortBy;
    var sorted := SortBy(MappingKey(), e.mappings);
    SortByIsSorted(MappingKey(), e.mappings);
    forall i | 0 <= i < |sorted| ensures TellsMapping(ResolveMappings(e, targets)[i], sorted[i], e, targets) {
    }
  }

  /** Every shown mapping is one of the entry, and the other way round. */
  ghost predicate SameMappings(resolved: seq<ResolvedMapping>, e: Entry, targets: Targets) {
    && (forall r | r in resolved :: exists m :: m in e.mappings && TellsMapping(r, m, e, targets))
    && (forall m | m in e.mappings :: exists r :: r in resolved && TellsMapping(r, m, e, targets))
  }

  ghost predicate TwoShownPrimaries(resolved: seq<ResolvedMapping>) {
    exists i, j | 0 <= i < j < |resolved| :: resolved[i].role == Primary && resolved[j].role == Primary
  }

  lemma ShownMappings(e: Entry, targets: Targets, resolved: seq<ResolvedMapping>)
    requires TellsMappings(resolved, e, targets)
    ensures SameMappings(resolved, e, targets)
    ensures resolved == [] <==> e.mappings == []
  {
    hide TellsMapping, SortedBy;
    var sorted :| multiset(sorted) == multiset(e.mappings) && SortedBy(MappingKey(), sorted) && |sorted| == |resolved|
                  && forall i | 0 <= i < |sorted| :: TellsMapping(resolved[i], sorted[i], e, targets);
    MultisetMembers(sorted, e.mappings);
    SameLength(sorted, e.mappings);
    forall m | m in e.mappings ensures exists r :: r in resolved && TellsMapping(r, m, e, targets) {
      var i :| 0 <= i < |sorted| && sorted[i] == m;
      assert resolved[i] in resolved;
    }
    forall r | r in resolved ensures exists m :: m in e.mappings && TellsMapping(r, m, e, targets) {
      var i :| 0 <= i < |resolved| && resolved[i] == r;
      assert sorted[i] in sorted;
    }
  }

  lemma ShownPrimaries(e: Entry, targets: Targets, resolved: seq<ResolvedMapping>)
    requires TellsMappings(resolved, e, targets)
    ensures TwoShownPrimaries(resolved) <==> TwoPrimaries(e.mappings)
  {
    hide Gone, SortedBy, TwoPrimaries, TwoShownPrimaries;
    var sorted :| multiset(sorted) == multiset(e.mappings) && SortedBy(MappingKey(), sorted) && |sorted| == |resolved|
                  && forall i | 0 <= i < |sorted| :: TellsMapping(resolved[i], sorted[i], e, targets);
    PermutedPrimaries(sorted, e.mappings);
    SameRoles(sorted, resolved);
  }

  lemma PermutedPrimaries(a: seq<Mapping>, b: seq<Mapping>)
    requires multiset(a) == multiset(b)
    ensures TwoPrimaries(a) <==> TwoPrimaries(b)
  {
    hide TwoPrimaries;
    TwoPrimariesByCount(a);
    TwoPrimariesByCount(b);
  }

  lemma SameRoles(mappings: seq<Mapping>, resolved: seq<ResolvedMapping>)
    requires |mappings| == |resolved| && forall i | 0 <= i < |mappings| :: mappings[i].role == resolved[i].role
    ensures TwoShownPrimaries(resolved) <==> TwoPrimaries(mappings)
  {
  }

  lemma SameLength<T>(a: seq<T>, b: seq<T>)
    requires multiset(a) == multiset(b)
    ensures |a| == |b|
  {
    assert |multiset(a)| == |a| && |multiset(b)| == |b|;
  }

  lemma MappingShownAs(resolved: seq<ResolvedMapping>, e: Entry, targets: Targets, m: Mapping) returns (r: ResolvedMapping)
    requires SameMappings(resolved, e, targets) && m in e.mappings
    ensures r in resolved && TellsMapping(r, m, e, targets)
  {
    hide TellsMapping;
    r :| r in resolved && TellsMapping(r, m, e, targets);
  }

  lemma ShownMappingOf(resolved: seq<ResolvedMapping>, e: Entry, targets: Targets, r: ResolvedMapping) returns (m: Mapping)
    requires SameMappings(resolved, e, targets) && r in resolved
    ensures m in e.mappings && TellsMapping(r, m, e, targets)
  {
    hide TellsMapping;
    m :| m in e.mappings && TellsMapping(r, m, e, targets);
  }

  /** What the rungs of the resolver ask of the shown mappings, asked of the entry. */
  lemma RungsIff(e: Entry, targets: Targets, resolved: seq<ResolvedMapping>)
    requires SameMappings(resolved, e, targets)
    ensures (exists r | r in resolved :: !r.found) <==> Dangles(e, targets)
    ensures (exists r | r in resolved :: r.sourceChanged) <==> SourceMoved(e)
    ensures (exists r | r in resolved :: r.objectId in targets && targets[r.objectId].isStale) <==> HasStaleTarget(e, targets)
  {
    hide Gone, SameMappings;
    forall r | r in resolved ensures (!r.found ==> Dangles(e, targets)) && (r.sourceChanged ==> SourceMoved(e))
                                     && (r.objectId in targets && targets[r.objectId].isStale ==> HasStaleTarget(e, targets))
    {
      var m := ShownMappingOf(resolved, e, targets, r);
    }
    if m :| m in e.mappings && Gone(targets, m.objectId) {
      var r := MappingShownAs(resolved, e, targets, m);
    }
    if m :| m in e.mappings && m.importedFingerprint != e.entryFingerprint {
      var r := MappingShownAs(resolved, e, targets, m);
    }
    if m :| m in e.mappings && m.objectId in targets && targets[m.objectId].isStale {
      var r := MappingShownAs(resolved, e, targets, m);
    }
  }

  lemma DuplicateIff(e: Entry, entries: seq<Entry>, targets: Targets, owners: map<string, nat>, resolved: seq<ResolvedMapping>)
    requires CountsOwners(owners, entries) && SameMappings(resolved, e, targets)
    ensures (exists r | r in resolved :: r.role == Primary && CountOf(owners, r.objectId) > 1) <==> SharesObject(e, entries)
  {
    hide OwnedTwice, Owners, CountOf, Gone;
    forall id ensures CountOf(owners, id) > 1 <==> OwnedTwice(entries, id) {
      OwnersIff(entries, id);
    }
  }

  /** The state of a resolved entry is the one that fits it, and only one does. */
  lemma StateIff(e: Entry, entries: seq<Entry>, targets: Targets, owners: map<string, nat>, state: State)
    requires CountsOwners(owners, entries)
    ensures ResolveState(e, ResolveMappings(e, targets), targets, owners) == state <==> Fits(state, e, entries, targets)
  {
    hide CountsOwners, ResolveMappings, TellsMappings, SameMappings, SharesObject, TwoPrimaries, Dangles, SourceMoved,
         HasStaleTarget;
    var resolved := ResolveMappings(e, targets);
    ResolvedTells(e, targets);
    ShownMappings(e, targets, resolved);
    ShownPrimaries(e, targets, resolved);
    RungsIff(e, targets, resolved);
    DuplicateIff(e, entries, targets, owners, resolved);
  }

  // Rows.

  /** The row is that of the entry. */
  ghost predicate Tells(d: Detail, e: Entry, entries: seq<Entry>, targets: Targets) {
    && d.sourceUri == e.sourceUri && d.entryId == e.entryId && d.classification == e.classification
    && d.intent == e.intent && d.decisionReason == e.decisionReason && d.presence == e.presence
    && d.entryFingerprint == e.entryFingerprint && d.sourceFingerprint == e.sourceFingerprint
    && d.observedAt == e.observedAt
    && TellsMappings(d.mappings, e, targets)
    && forall state :: d.state == state <==> Fits(state, e, entries, targets)
  }

  lemma ResolvedEntryTells(e: Entry, entries: seq<Entry>, targets: Targets, owners: map<string, nat>)
    requires CountsOwners(owners, entries)
    ensures Tells(ResolveEntry(e, targets, owners), e, entries, targets)
  {
    hide CountsOwners, ResolveMappings, TellsMappings, ResolveState, Fits;
    ResolvedTells(e, targets);
    forall state
      ensures ResolveState(e, ResolveMappings(e, targets), targets, owners) == state <==> Fits(state, e, entries, targets)
    {
      StateIff(e, entries, targets, owners, state);
    }
  }

  /** Coverage has one row for every entry, sorted by source, and each row tells the state that fits its entry. */
  lemma CoverageTells(details: seq<Detail>, entries: seq<Entry>, targets: Targets)
    requires IsCoverage(details, entries, targets)
    ensures |details| == |entries| && SortedBy(DetailKey(), details)
    ensures forall d | d in details :: exists e :: e in entries && Tells(d, e, entries, targets)
    ensures forall e | e in entries :: exists d :: d in details && Tells(d, e, entries, targets)
  {
    hide CountsOwners, ResolveEntry, Tells, SortBy, KeyLe;
    var owners :| CountsOwners(owners, entries) && details == SortBy(DetailKey(), Rows(entries, targets, owners));
    var rows := Rows(entries, targets, owners);
    SortByIsSorted(DetailKey(), rows);
    MultisetMembers(details, rows);
    forall i | 0 <= i < |entries| ensures Tells(rows[i], entries[i], entries, targets) {
      ResolvedEntryTells(entries[i], entries, targets, owners);
    }
    forall d | d in details ensures exists e :: e in entries && Tells(d, e, entries, targets) {
      var i :| 0 <= i < |rows| && rows[i] == d;
      assert entries[i] in entries;
    }
    forall e | e in entries ensures exists d :: d in details && Tells(d, e, entries, targets) {
      var i :| 0 <= i < |entries| && entries[i] == e;
      assert rows[i] in rows;
    }
  }

  // Views.

  /** What a viewer is shown of the target of a mapping: visible existing objects, and with elevated
      rights also that an object does not exist. */
  ghost predicate MappingShown(m: Mapping, targets: Targets, visible: set<string>, elevated: bool) {
    m.objectId in targets && if targets[m.objectId].found then m.objectId in visible else elevated
  }

  ghost predicate SomeShown(e: Entry, targets: Targets, visible: set<string>, elevated: bool) {
    exists m :: m in e.mappings && MappingShown(m, targets, visible, elevated)
  }

  /** Ordinary viewers see present entries with a shown mapping; elevated ones also every absent entry
      and every entry that is not mapped at all. */
  ghost predicate EntryShown(e: Entry, targets: Targets, visible: set<string>, elevated: bool) {
    if elevated then e.presence == Absent || e.mappings == [] || SomeShown(e, targets, visible, elevated)
    else e.presence == Present && SomeShown(e, targets, visible, elevated)
  }

  lemma KeptIff(m: Mapping, targets: Targets, visible: set<string>, elevated: bool)
    ensures m.objectId in Kept(targets, visible, elevated) <==> MappingShown(m, targets, visible, elevated)
  {
  }

  lemma VisibleIff(e: Entry, shown: Entry, targets: Targets, visible: set<string>, elevated: bool)
    ensures shown in Visible(e, Kept(targets, visible, elevated), elevated) <==>
            EntryShown(e, targets, visible, elevated)
            && shown == e.(mappings := Filter(e.mappings, Kept(targets, visible, elevated)))
  {
    hide Kept, MappingShown;
    forall m: Mapping ensures m.objectId in Kept(targets, visible, elevated) <==> MappingShown(m, targets, visible, elevated) {
      KeptIff(m, targets, visible, elevated);
    }
    var kept := Filter(e.mappings, Kept(targets, visible, elevated));
    if kept != [] {
      assert kept[0] in kept;
    }
  }

  lemma {:induction false} VisibleEntriesIff(entries: seq<Entry>, shown: Entry, targets: Targets, visible: set<string>, elevated: bool)
    ensures shown in VisibleEntries(entries, Kept(targets, visible, elevated), elevated) <==>
            exists e :: e in entries && EntryShown(e, targets, visible, elevated)
                        && shown == e.(mappings := Filter(e.mappings, Kept(targets, visible, elevated)))
  {
    hide Kept, Filter, Visible, EntryShown;
    if entries != [] {
      var front, last := entries[..|entries| - 1], entries[|entries| - 1];
      assert entries == front + [last];
      VisibleEntriesIff(front, shown, targets, visible, elevated);
      VisibleIff(last, shown, targets, visible, elevated);
    }
  }

  /** The rows of a view are those of the shown entries, each with its shown mappings alone. */
  lemma ViewTells(details: seq<Detail>, entries: seq<Entry>, targets: Targets, visible: set<string>, elevated: bool)
    returns (shown: seq<Entry>)
    requires IsView(details, entries, targets, visible, elevated)
    ensures forall s :: s in shown <==>
              exists e :: e in entries && EntryShown(e, targets, visible, elevated)
                          && s == e.(mappings := Filter(e.mappings, Kept(targets, visible, elevated)))
    ensures |details| == |shown| && SortedBy(DetailKey(), details)
    ensures forall d | d in details :: exists s :: s in shown && Tells(d, s, shown, VisibleTargets(targets, visible))
    ensures forall s | s in shown :: exists d :: d in details && Tells(d, s, shown, VisibleTargets(targets, visible))
  {
    hide IsCoverage, Tells, EntryShown, Kept, Filter, VisibleTargets, VisibleEntries, KeyLe, SortedBy;
    shown := VisibleEntries(entries, Kept(targets, visible, elevated), elevated);
    forall s ensures s in shown <==>
      exists e :: e in entries && EntryShown(e, targets, visible, elevated)
                  && s == e.(mappings := Filter(e.mappings, Kept(targets, visible, elevated)))
    {
      VisibleEntriesIff(entries, s, targets, visible, elevated);
    }
    CoverageTells(details, shown, VisibleTargets(targets, visible));
  }
}
