/** Coverage of source entries by catalog objects: the state resolver, the authorization filter and
    the canonical digest payload. */
module SourceCoverage {
  import opened Wrappers
  import opened Ordering

  datatype Classification = Operational | Retired | Historical | Research | Migration | Generated | Ignored

  datatype Intent = ExpectObject | NoCatalogObject

  datatype Role = Primary | Derived

  datatype Presence = Present | Absent

  datatype State =
    | MappedCurrent | MappedStale | UnmappedOperational | IntentionallyUnmapped | OrphanedCatalogReference
    | MissingSource | AmbiguousMapping | DuplicateMapping | SourceChangedSinceImport

  const SOURCE_ONLY_STATES: set<State> :=
    {UnmappedOperational, IntentionallyUnmapped, OrphanedCatalogReference, MissingSource}

  datatype Mapping = Mapping(objectId: string, role: Role, importedFingerprint: string,
                             importedAt: Option<string>, verifiedAt: Option<string>)

  datatype Entry = Entry(sourceUri: string, entryId: Option<string>, classification: Classification, intent: Intent,
                         decisionReason: string, entryFingerprint: string, sourceFingerprint: string,
                         observedAt: string, presence: Presence, mappings: seq<Mapping>)
  {
    function Key(): Key {
      [sourceUri, if entryId.Some? then entryId.value else ""]
    }
  }

  /** An empty digest means that none is stored. */
  datatype Snapshot = Snapshot(collector: string, collectedAt: string, entries: seq<Entry>, digest: string)

  datatype Target = Target(kind: string, found: bool, isStale: bool)

  type Targets = map<string, Target>

  datatype ResolvedMapping = ResolvedMapping(objectId: string, targetKind: Option<string>, role: Role, found: bool,
                                             sourceChanged: bool, importedAt: Option<string>, verifiedAt: Option<string>)

  datatype Detail = Detail(sourceUri: string, entryId: Option<string>, classification: Classification, intent: Intent,
                           decisionReason: string, state: State, presence: Presence, entryFingerprint: string,
                           sourceFingerprint: string, observedAt: string, mappings: seq<ResolvedMapping>)
  {
    function Key(): Key {
      [sourceUri, if entryId.Some? then entryId.value else ""]
    }
  }

  function RoleName(role: Role): string {
    match role
    case Primary => "primary"
    case Derived => "derived"
  }

  function MappingKey(): Mapping -> Key {
    (m: Mapping) => [m.objectId, RoleName(m.role)]
  }

  function EntryKey(): Entry -> Key {
    (e: Entry) => e.Key()
  }

  function DetailKey(): Detail -> Key {
    (d: Detail) => d.Key()
  }

  // The resolver.

  predicate Exists(id: string, targets: Targets) {
    id in targets && targets[id].found
  }

  function ResolveMapping(m: Mapping, entry: Entry, targets: Targets): ResolvedMapping {
    ResolvedMapping(m.objectId, if Exists(m.objectId, targets) then Some(targets[m.objectId].kind) else None, m.role,
                    Exists(m.objectId, targets), m.importedFingerprint != entry.entryFingerprint, m.importedAt, m.verifiedAt)
  }

  function ResolveMappings(entry: Entry, targets: Targets): (r: seq<ResolvedMapping>)
    ensures |r| == |entry.mappings|
  {
    var sorted := SortBy(MappingKey(), entry.mappings);
    seq(|sorted|, i requires 0 <= i < |sorted| => ResolveMapping(sorted[i], entry, targets))
  }

  /** How many primary mappings of present entries name an object. */
  function OwnersIn(mappings: seq<Mapping>, id: string): nat {
    if mappings == [] then 0
    else OwnersIn(mappings[..|mappings| - 1], id)
         + (if mappings[|mappings| - 1].role == Primary && mappings[|mappings| - 1].objectId == id then 1 else 0)
  }

  function Owners(entries: seq<Entry>, id: string): nat {
    if entries == [] then 0
    else
      var last := entries[|entries| - 1];
      Owners(entries[..|entries| - 1], id) + if last.presence == Present then OwnersIn(last.mappings, id) else 0
  }

  function CountOf(counts: map<string, nat>, id: string): nat {
    if id in counts then counts[id] else 0
  }

  /** `_resolve_state`. */
  function ResolveState(entry: Entry, mappings: seq<ResolvedMapping>, targets: Targets, owners: map<string, nat>): State {
    if entry.presence == Absent then MissingSource
    else if exists m | m in mappings :: !m.found then OrphanedCatalogReference
    else if mappings == [] then (if entry.intent == NoCatalogObject then IntentionallyUnmapped else UnmappedOperational)
    else if exists i, j | 0 <= i < j < |mappings| :: mappings[i].role == Primary && mappings[j].role == Primary then AmbiguousMapping
    else if exists m | m in mappings :: m.role == Primary && CountOf(owners, m.objectId) > 1 then DuplicateMapping
    else if exists m | m in mappings :: m.sourceChanged then SourceChangedSinceImport
    else if exists m | m in mappings :: m.objectId in targets && targets[m.objectId].isStale then MappedStale
    else MappedCurrent
  }

  /** `_resolve_entry`. */
  function ResolveEntry(entry: Entry, targets: Targets, owners: map<string, nat>): Detail {
    var mappings := ResolveMappings(entry, targets);
    Detail(entry.sourceUri, entry.entryId, entry.classification, entry.intent, entry.decisionReason,
           ResolveState(entry, mappings, targets, owners), entry.presence, entry.entryFingerprint,
           entry.sourceFingerprint, entry.observedAt, mappings)
  }

  ghost predicate CountsOwners(owners: map<string, nat>, entries: seq<Entry>) {
    forall id :: CountOf(owners, id) == Owners(entries, id)
  }

  /** The rows before sorting. */
  function Rows(entries: seq<Entry>, targets: Targets, owners: map<string, nat>): seq<Detail> {
    Map(e => ResolveEntry(e, targets, owners), entries)
  }

  ghost predicate IsCoverage(details: seq<Detail>, entries: seq<Entry>, targets: Targets) {
    exists owners :: CountsOwners(owners, entries) && details == SortBy(DetailKey(), Rows(entries, targets, owners))
  }

  method CountEntry(owners: map<string, nat>, mappings: seq<Mapping>) returns (r: map<string, nat>)
    ensures forall id :: CountOf(r, id) == CountOf(owners, id) + OwnersIn(mappings, id)
  {
    r := owners;
    for i := 0 to |mappings|
      invariant forall id :: CountOf(r, id) == CountOf(owners, id) + OwnersIn(mappings[..i], id)
    {
      assert mappings[..i + 1][..i] == mappings[..i];
      if mappings[i].role == Primary {
        r := r[mappings[i].objectId := CountOf(r, mappings[i].objectId) + 1];
      }
    }
    assert mappings[..|mappings|] == mappings;
  }

  /** `resolve_coverage`. */
  method ResolveCoverage(entries: seq<Entry>, targets: Targets) returns (details: seq<Detail>)
    ensures IsCoverage(details, entries, targets)
  {
    hide ResolveEntry, KeyLe, OwnersIn;
    var owners: map<string, nat> := map[];
    for i := 0 to |entries|
      invariant CountsOwners(owners, entries[..i])
    {
      assert entries[..i + 1][..i] == entries[..i];
      if entries[i].presence == Present {
        owners := CountEntry(owners, entries[i].mappings);
      }
    }
    assert entries[..|entries|] == entries;
    details := SortBy(DetailKey(), Rows(entries, targets, owners));
  }

  /** The rows do not depend on how the owner counts are stored. */
  lemma CoverageIsDetermined(a: seq<Detail>, b: seq<Detail>, entries: seq<Entry>, targets: Targets)
    requires IsCoverage(a, entries, targets) && IsCoverage(b, entries, targets)
    ensures a == b
  {
    hide SortBy, ResolveState, CountOf, Owners;
    var p :| CountsOwners(p, entries) && a == SortBy(DetailKey(), Rows(entries, targets, p));
    var q :| CountsOwners(q, entries) && b == SortBy(DetailKey(), Rows(entries, targets, q));
    forall i | 0 <= i < |entries| ensures Rows(entries, targets, p)[i] == Rows(entries, targets, q)[i] {
      SameCountsSameState(entries[i], ResolveMappings(entries[i], targets), targets, p, q);
    }
    assert Rows(entries, targets, p) == Rows(entries, targets, q);
  }

  lemma SameCountsSameState(entry: Entry, mappings: seq<ResolvedMapping>, targets: Targets, p: map<string, nat>, q: map<string, nat>)
    requires forall id :: CountOf(p, id) == CountOf(q, id)
    ensures ResolveState(entry, mappings, targets, p) == ResolveState(entry, mappings, targets, q)
  {
    hide CountOf;
  }

  // The authorization filter.

  function Filter(mappings: seq<Mapping>, keep: set<string>): (r: seq<Mapping>)
    ensures forall m :: m in r <==> m in mappings && m.objectId in keep
  {
    if mappings == [] then []
    else
      var front, last := Filter(mappings[..|mappings| - 1], keep), mappings[|mappings| - 1];
      assert mappings == mappings[..|mappings| - 1] + [last];
      if last.objectId in keep then front + [last] else front
  }

  /** Visible, existing targets. */
  function VisibleTargets(targets: Targets, visible: set<string>): Targets {
    map id | id in targets && id in visible && targets[id].found :: targets[id]
  }

  /** The ids whose mappings are kept: visible existing targets, and in the elevated view also
      targets known not to exist. */
  function Kept(targets: Targets, visible: set<string>, elevated: bool): set<string> {
    VisibleTargets(targets, visible).Keys
    + (if elevated then set id | id in targets && !targets[id].found else {})
  }

  /** What the filter makes of one entry, nothing when it is withheld. */
  function Visible(entry: Entry, kept: set<string>, elevated: bool): seq<Entry> {
    var mappings := Filter(entry.mappings, kept);
    if entry.presence != Present && !elevated then []
    else if mappings == [] && entry.mappings != [] && entry.presence == Present then []
    else if mappings == [] && !elevated then []
    else [entry.(mappings := mappings)]
  }

  function VisibleEntries(entries: seq<Entry>, kept: set<string>, elevated: bool): seq<Entry> {
    if entries == [] then []
    else VisibleEntries(entries[..|entries| - 1], kept, elevated) + Visible(entries[|entries| - 1], kept, elevated)
  }

  /** The authorized view of one principal. */
  ghost predicate IsView(details: seq<Detail>, entries: seq<Entry>, targets: Targets, visible: set<string>, elevated: bool) {
    IsCoverage(details, VisibleEntries(entries, Kept(targets, visible, elevated), elevated), VisibleTargets(targets, visible))
  }

  /** `resolve_visible_coverage`. */
  method ResolveVisibleCoverage(entries: seq<Entry>, targets: Targets, visible: set<string>, elevated: bool)
    returns (details: seq<Detail>)
    ensures IsView(details, entries, targets, visible, elevated)
  {
    hide IsCoverage, Filter;
    var kept := Kept(targets, visible, elevated);
    var shown: seq<Entry> := [];
    for i := 0 to |entries|
      invariant shown == VisibleEntries(entries[..i], kept, elevated)
    {
      var entry := entries[i];
      assert entries[..i + 1][..i] == entries[..i];
      assert shown + [] == shown;
      if entry.presence != Present && !elevated {
        continue;
      }
      var mappings := Filter(entry.mappings, kept);
      if mappings == [] && entry.mappings != [] && entry.presence == Present {
        continue;
      }
      if mappings == [] && !elevated {
        continue;
      }
      shown := shown + [entry.(mappings := mappings)];
    }
    assert entries[..|entries|] == entries;
    details := ResolveCoverage(shown, VisibleTargets(targets, visible));
  }

  // What the view cannot reveal.

  /** The entries with every mapping to a concealed or missing object erased. */
  function Erased(entries: seq<Entry>, keep: set<string>): (r: seq<Entry>)
    ensures |r| == |entries|
    ensures forall i | 0 <= i < |entries| :: r[i] == entries[i].(mappings := Filter(entries[i].mappings, keep))
  {
    seq(|entries|, i requires 0 <= i < |entries| => entries[i].(mappings := Filter(entries[i].mappings, keep)))
  }

  lemma {:induction false} FilterTwice(mappings: seq<Mapping>, keep: set<string>)
    ensures Filter(Filter(mappings, keep), keep) == Filter(mappings, keep)
  {
    if mappings != [] {
      var front := Filter(mappings[..|mappings| - 1], keep);
      FilterTwice(mappings[..|mappings| - 1], keep);
      var last := mappings[|mappings| - 1];
      assert (front + [last])[..|front|] == front;
    }
  }

  lemma {:induction false} OrdinaryErasure(entries: seq<Entry>, keep: set<string>)
    ensures VisibleEntries(Erased(entries, keep), keep, false) == VisibleEntries(entries, keep, false)
  {
    hide Filter;
    if entries != [] {
      var front, last := entries[..|entries| - 1], entries[|entries| - 1];
      OrdinaryErasure(front, keep);
      assert Erased(entries, keep)[..|front|] == Erased(front, keep);
      FilterTwice(last.mappings, keep);
      assert Erased(entries, keep)[|front|] == last.(mappings := Filter(last.mappings, keep));
    }
  }

  /** The ordinary view is the view of the catalog from which every concealed or missing object and
      every mapping to one was erased. */
  lemma OrdinaryViewIsErasure(details: seq<Detail>, entries: seq<Entry>, targets: Targets, visible: set<string>)
    ensures IsView(details, entries, targets, visible, false) <==>
            IsView(details, Erased(entries, VisibleTargets(targets, visible).Keys), VisibleTargets(targets, visible), visible, false)
  {
    hide IsCoverage, VisibleEntries;
    var shown := VisibleTargets(targets, visible);
    assert VisibleTargets(shown, visible) == shown;
    assert Kept(targets, visible, false) == shown.Keys == Kept(shown, visible, false);
    OrdinaryErasure(entries, shown.Keys);
  }

  /** Two worlds that agree on the visible mappings and their targets show the same rows. */
  lemma OrdinaryViewHidesTheRest(a: seq<Detail>, b: seq<Detail>, entries: seq<Entry>, targets: Targets,
                                 entries': seq<Entry>, targets': Targets, visible: set<string>)
    requires VisibleTargets(targets, visible) == VisibleTargets(targets', visible)
    requires Erased(entries, VisibleTargets(targets, visible).Keys) == Erased(entries', VisibleTargets(targets', visible).Keys)
    requires IsView(a, entries, targets, visible, false) && IsView(b, entries', targets', visible, false)
    ensures a == b
  {
    hide IsCoverage, VisibleEntries, Erased;
    var shown := VisibleTargets(targets, visible);
    OrdinaryViewIsErasure(a, entries, targets, visible);
    OrdinaryViewIsErasure(b, entries', targets', visible);
    var common := Erased(entries, shown.Keys);
    CoverageIsDetermined(a, b, VisibleEntries(common, Kept(shown, visible, false), false), VisibleTargets(shown, visible));
  }

  /** The elevated view does not depend on the kind or staleness of concealed existing targets. */
  lemma ElevatedViewHidesConcealedTargets(a: seq<Detail>, b: seq<Detail>, entries: seq<Entry>, targets: Targets,
                                          targets': Targets, visible: set<string>)
    requires targets.Keys == targets'.Keys
    requires forall id | id in targets :: targets[id].found == targets'[id].found
    requires forall id | id in targets && id in visible :: targets[id] == targets'[id]
    requires IsView(a, entries, targets, visible, true) && IsView(b, entries, targets', visible, true)
    ensures a == b
  {
    hide IsCoverage, VisibleEntries;
    assert VisibleTargets(targets, visible) == VisibleTargets(targets', visible);
    assert Kept(targets, visible, true) == Kept(targets', visible, true);
    CoverageIsDetermined(a, b, VisibleEntries(entries, Kept(targets, visible, true), true), VisibleTargets(targets, visible));
  }

  /** The catalog without the present entries that are mapped to concealed objects only. */
  function Withdrawn(entries: seq<Entry>, keep: set<string>): seq<Entry> {
    if entries == [] then []
    else
      var front, last := Withdrawn(entries[..|entries| - 1], keep), entries[|entries| - 1];
      if last.presence == Present && last.mappings != [] && Filter(last.mappings, keep) == [] then front else front + [last]
  }

  /** The visible existing targets, and those known not to exist. */
  function KnownTargets(targets: Targets, visible: set<string>): Targets {
    map id | id in targets && id in Kept(targets, visible, true) :: targets[id]
  }

  lemma ErasedSnoc(entries: seq<Entry>, e: Entry, keep: set<string>)
    ensures Erased(entries + [e], keep) == Erased(entries, keep) + [e.(mappings := Filter(e.mappings, keep))]
  {
    hide Filter;
  }

  lemma VisibleSnoc(entries: seq<Entry>, e: Entry, keep: set<string>, elevated: bool)
    ensures VisibleEntries(entries + [e], keep, elevated) == VisibleEntries(entries, keep, elevated) + Visible(e, keep, elevated)
  {
    hide Visible;
    assert (entries + [e])[..|entries|] == entries;
  }

  lemma {:induction false} ElevatedErasure(entries: seq<Entry>, keep: set<string>)
    ensures VisibleEntries(Erased(Withdrawn(entries, keep), keep), keep, true) == VisibleEntries(entries, keep, true)
  {
    hide Filter, Erased;
    if entries == [] {
      assert Erased([], keep) == [];
    } else {
      var front, last := entries[..|entries| - 1], entries[|entries| - 1];
      ElevatedErasure(front, keep);
      if last.presence == Present && last.mappings != [] && Filter(last.mappings, keep) == [] {
        assert VisibleEntries(front, keep, true) + [] == VisibleEntries(front, keep, true);
      } else {
        var e := last.(mappings := Filter(last.mappings, keep));
        ErasedSnoc(Withdrawn(front, keep), last, keep);
        VisibleSnoc(Erased(Withdrawn(front, keep), keep), e, keep, true);
        FilterTwice(last.mappings, keep);
      }
    }
  }

  lemma KnownTargetsAgain(targets: Targets, visible: set<string>)
    ensures var known := KnownTargets(targets, visible);
            && Kept(known, visible, true) == Kept(targets, visible, true)
            && VisibleTargets(known, visible) == VisibleTargets(targets, visible)
  {
  }

  /** The elevated view is the view of the catalog from which every mapping to a concealed existing
      object was erased, and every present entry that was mapped to such objects only withdrawn. */
  lemma ElevatedViewIsErasure(details: seq<Detail>, entries: seq<Entry>, targets: Targets, visible: set<string>)
    ensures var kept := Kept(targets, visible, true);
            IsView(details, entries, targets, visible, true) <==>
            IsView(details, Erased(Withdrawn(entries, kept), kept), KnownTargets(targets, visible), visible, true)
  {
    hide IsCoverage, VisibleEntries, Withdrawn, Kept, KnownTargets, VisibleTargets;
    KnownTargetsAgain(targets, visible);
    ElevatedErasure(entries, Kept(targets, visible, true));
  }

  /** Two worlds that agree on the known targets and on what is left of the catalog show the same rows. */
  lemma ElevatedViewHidesTheRest(a: seq<Detail>, b: seq<Detail>, entries: seq<Entry>, targets: Targets,
                                 entries': seq<Entry>, targets': Targets, visible: set<string>)
    requires KnownTargets(targets, visible) == KnownTargets(targets', visible)
    requires var kept, kept' := Kept(targets, visible, true), Kept(targets', visible, true);
             Erased(Withdrawn(entries, kept), kept) == Erased(Withdrawn(entries', kept'), kept')
    requires IsView(a, entries, targets, visible, true) && IsView(b, entries', targets', visible, true)
    ensures a == b
  {
    hide IsCoverage, VisibleEntries, Withdrawn, Kept, KnownTargets, VisibleTargets, Erased;
    var known, kept := KnownTargets(targets, visible), Kept(targets, visible, true);
    ElevatedViewIsErasure(a, entries, targets, visible);
    ElevatedViewIsErasure(b, entries', targets', visible);
    KnownTargetsAgain(targets, visible);
    KnownTargetsAgain(targets', visible);
    var common := Erased(Withdrawn(entries, kept), kept);
    CoverageIsDetermined(a, b, VisibleEntries(common, Kept(known, visible, true), true), VisibleTargets(known, visible));
  }

  // What the elevated view does reveal.

  lemma {:induction false} ShownMappingsAreKept(entries: seq<Entry>, keep: set<string>, elevated: bool, e: Entry)
    requires e in VisibleEntries(entries, keep, elevated)
    ensures forall m | m in e.mappings :: m.objectId in keep
  {
    if entries != [] && e !in Visible(entries[|entries| - 1], keep, elevated) {
      ShownMappingsAreKept(entries[..|entries| - 1], keep, elevated, e);
    }
  }

  lemma {:induction false} MappedEntryIsShown(entries: seq<Entry>, keep: set<string>, e: Entry)
    requires e in entries && Filter(e.mappings, keep) != []
    ensures e.(mappings := Filter(e.mappings, keep)) in VisibleEntries(entries, keep, true)
  {
    hide Filter;
    var front, last := entries[..|entries| - 1], entries[|entries| - 1];
    assert entries == front + [last];
    if e != last {
      MappedEntryIsShown(front, keep, e);
    }
  }

  lemma RowIsListed(details: seq<Detail>, entries: seq<Entry>, targets: Targets, e: Entry) returns (d: Detail)
    requires IsCoverage(details, entries, targets) && e in entries
    ensures d in details && d.mappings == ResolveMappings(e, targets)
  {
    hide ResolveMappings, CountsOwners, ResolveState;
    var owners :| CountsOwners(owners, entries) && details == SortBy(DetailKey(), Rows(entries, targets, owners));
    var rows := Rows(entries, targets, owners);
    MultisetMembers(details, rows);
    var i :| 0 <= i < |entries| && entries[i] == e;
    d := rows[i];
  }

  lemma MappingIsResolved(entry: Entry, targets: Targets, m: Mapping)
    requires m in entry.mappings
    ensures ResolveMapping(m, entry, targets) in ResolveMappings(entry, targets)
  {
    var sorted := SortBy(MappingKey(), entry.mappings);
    MultisetMembers(sorted, entry.mappings);
    var i :| 0 <= i < |sorted| && sorted[i] == m;
    assert ResolveMappings(entry, targets)[i] == ResolveMapping(m, entry, targets);
  }

  /** Some row shows a mapping to the object. */
  ghost predicate Shows(details: seq<Detail>, id: string) {
    exists d, r :: d in details && r in d.mappings && r.objectId == id
  }

  lemma ShownIffKept(details: seq<Detail>, entries: seq<Entry>, targets: Targets, keep: set<string>, id: string)
    requires IsCoverage(details, VisibleEntries(entries, keep, true), targets)
    ensures Shows(details, id) <==> id in keep && exists e, m :: e in entries && m in e.mappings && m.objectId == id
  {
    hide IsCoverage, ResolveMappings, VisibleEntries;
    if d, r :| d in details && r in d.mappings && r.objectId == id {
      var e, owners := CoverageRow(details, VisibleEntries(entries, keep, true), targets, d);
      ResolvedMember(e, targets, r);
      ShownMappingsAreKept(entries, keep, true, e);
      ShownFromEntry(entries, keep, true, e);
    }
    if e, m :| id in keep && e in entries && m in e.mappings && m.objectId == id {
      assert m in Filter(e.mappings, keep);
      MappedEntryIsShown(entries, keep, e);
      var shown := e.(mappings := Filter(e.mappings, keep));
      var d := RowIsListed(details, VisibleEntries(entries, keep, true), targets, shown);
      MappingIsResolved(shown, targets, m);
    }
  }

  lemma {:induction false} ShownFromEntry(entries: seq<Entry>, keep: set<string>, elevated: bool, e: Entry)
    requires e in VisibleEntries(entries, keep, elevated)
    ensures exists o :: o in entries && e.mappings == Filter(o.mappings, keep)
  {
    var front, last := entries[..|entries| - 1], entries[|entries| - 1];
    assert entries == front + [last];
    if e !in Visible(last, keep, elevated) {
      ShownFromEntry(front, keep, elevated, e);
    }
  }

  lemma {:induction false} UnmappedFilter(mappings: seq<Mapping>, keep: set<string>, id: string)
    requires forall m | m in mappings :: m.objectId != id
    ensures Filter(mappings, keep + {id}) == Filter(mappings, keep)
  {
    if mappings != [] {
      assert forall m | m in mappings[..|mappings| - 1] :: m in mappings;
      UnmappedFilter(mappings[..|mappings| - 1], keep, id);
      assert mappings[|mappings| - 1] in mappings;
    }
  }

  lemma {:induction false} UnmappedView(entries: seq<Entry>, keep: set<string>, id: string)
    requires forall e, m | e in entries && m in e.mappings :: m.objectId != id
    ensures VisibleEntries(entries, keep + {id}, true) == VisibleEntries(entries, keep, true)
  {
    hide Filter;
    if entries != [] {
      var front, last := entries[..|entries| - 1], entries[|entries| - 1];
      assert forall e | e in front :: e in entries;
      UnmappedView(front, keep, id);
      assert last in entries;
      UnmappedFilter(last.mappings, keep, id);
    }
  }

  /** The targets when the object does not exist. */
  function Missing(targets: Targets, id: string): Targets
    requires id in targets
  {
    targets[id := targets[id].(found := false)]
  }

  lemma MissingIsKept(targets: Targets, visible: set<string>, id: string)
    requires id in targets && targets[id].found && id !in visible
    ensures VisibleTargets(Missing(targets, id), visible) == VisibleTargets(targets, visible)
    ensures Kept(Missing(targets, id), visible, true) == Kept(targets, visible, true) + {id} && id !in Kept(targets, visible, true)
  {
  }

  /** Whether an object that the viewer may not see exists can be told from the elevated view exactly
      when some entry is mapped to it. */
  lemma ElevatedViewTellsExistence(a: seq<Detail>, b: seq<Detail>, entries: seq<Entry>, targets: Targets, id: string, visible: set<string>)
    requires id in targets && targets[id].found && id !in visible
    requires IsView(a, entries, targets, visible, true) && IsView(b, entries, Missing(targets, id), visible, true)
    ensures a != b <==> exists e, m :: e in entries && m in e.mappings && m.objectId == id
  {
    hide IsCoverage, VisibleEntries, Shows, Kept, VisibleTargets, Missing;
    MissingIsKept(targets, visible, id);
    var kept := Kept(targets, visible, true);
    ShownIffKept(a, entries, VisibleTargets(targets, visible), kept, id);
    ShownIffKept(b, entries, VisibleTargets(targets, visible), kept + {id}, id);
    if forall e, m | e in entries && m in e.mappings :: m.objectId != id {
      UnmappedView(entries, kept, id);
      CoverageIsDetermined(a, b, VisibleEntries(entries, kept, true), VisibleTargets(targets, visible));
    }
  }

  lemma {:induction false} OrdinaryEntriesAreMapped(entries: seq<Entry>, keep: set<string>, e: Entry)
    requires e in VisibleEntries(entries, keep, false)
    ensures e.presence == Present && e.mappings != [] && forall m | m in e.mappings :: m.objectId in keep
  {
    if entries != [] {
      var last := entries[|entries| - 1];
      if e !in Visible(last, keep, false) {
        OrdinaryEntriesAreMapped(entries[..|entries| - 1], keep, e);
      }
    }
  }

  lemma ResolvedMember(entry: Entry, targets: Targets, r: ResolvedMapping)
    requires r in ResolveMappings(entry, targets)
    ensures exists m :: m in entry.mappings && r == ResolveMapping(m, entry, targets)
  {
    var sorted := SortBy(MappingKey(), entry.mappings);
    MultisetMembers(sorted, entry.mappings);
    var i :| 0 <= i < |sorted| && ResolveMappings(entry, targets)[i] == r;
    assert sorted[i] in entry.mappings;
  }

  lemma CoverageRow(details: seq<Detail>, entries: seq<Entry>, targets: Targets, d: Detail)
    returns (e: Entry, owners: map<string, nat>)
    requires IsCoverage(details, entries, targets) && d in details
    ensures e in entries && CountsOwners(owners, entries) && d == ResolveEntry(e, targets, owners)
  {
    hide ResolveEntry, CountsOwners;
    owners :| CountsOwners(owners, entries) && details == SortBy(DetailKey(), Rows(entries, targets, owners));
    var rows := Rows(entries, targets, owners);
    MultisetMembers(details, rows);
    var i :| 0 <= i < |rows| && rows[i] == d;
    e := entries[i];
  }

  /** No row of the ordinary view carries a source-only state. */
  lemma OrdinaryViewHasNoSourceOnlyState(details: seq<Detail>, entries: seq<Entry>, targets: Targets, visible: set<string>, d: Detail)
    requires IsView(details, entries, targets, visible, false) && d in details
    ensures d.state !in SOURCE_ONLY_STATES
  {
    hide VisibleEntries, IsCoverage, ResolveMappings;
    var shown := VisibleTargets(targets, visible);
    var kept := Kept(targets, visible, false);
    var e, owners := CoverageRow(details, VisibleEntries(entries, kept, false), shown, d);
    OrdinaryEntriesAreMapped(entries, kept, e);
    forall r | r in ResolveMappings(e, shown) ensures r.found {
      ResolvedMember(e, shown, r);
    }
    assert |ResolveMappings(e, shown)| == |e.mappings|;
  }
}
