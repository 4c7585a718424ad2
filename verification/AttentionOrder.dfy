/** For which inputs the order of their lists decides whether a derivation is accepted. */
module AttentionOrder {
  import opened Wrappers
  import opened Ordering
  import opened AttentionSignals
  import opened Attention

  // What the inputs hold, whatever their order.

  /** An item of the same slot and the same or a lesser rank is raised. */
  predicate Beats(v: Item, u: Item) {
    SlotOf(v) == SlotOf(u) && v.Rank() <= u.Rank()
  }

  /** The events raise, with a known code, an item that suppresses `u`. */
  ghost predicate Covers(events: seq<Event>, u: Item, ctx: Context) {
    exists v :: Raised(v) in events && CodeIsKnown(v, ctx) && Beats(v, u)
  }

  ghost predicate IsUnknown(events: seq<Event>, u: Item, ctx: Context) {
    Raised(u) in events && !CodeIsKnown(u, ctx)
  }

  ghost predicate AllKnown(events: seq<Event>, ctx: Context) {
    forall u :: !IsUnknown(events, u, ctx)
  }

  /** Object ids are unique, and no kind holds the colon that separates it from the id in a reference. */
  ghost predicate RefsAreDistinct(objects: seq<Object>) {
    IdsAreDistinct(objects) && forall o | o in objects :: ':' !in o.kind
  }

  function ObjectEvents(input: Input, ctx: Context): seq<Event> {
    FlatMap(ObjectTrace(ctx), input.objects)
  }

  function TaskEvents(input: Input, ctx: Context): seq<Event> {
    FlatMap(TaskTrace(LabelsOf(input.objects), ctx), input.tasks)
  }

  function DiagnosticEvents(input: Input): seq<Event> {
    FlatMap(DiagnosticTrace(LabelsOf(input.objects)), input.diagnostics)
  }

  function CoverageEvents(input: Input): seq<Event> {
    FlatMap(CoverageTrace(LabelsOf(input.objects)), input.coverage)
  }

  lemma EventsAreSections(input: Input, ctx: Context)
    ensures Events(input, ctx) == ObjectEvents(input, ctx) + TaskEvents(input, ctx) + DiagnosticEvents(input)
                                  + CoverageEvents(input) + CatalogSignals(input.collected)
  {
    hide FlatMap, LabelsOf, CatalogSignals;
  }

  // Slots of the sections.

  lemma ColonSplits(k: string, i: string, k': string, i': string)
    requires k + ":" + i == k' + ":" + i' && ':' !in k && ':' !in k'
    ensures k == k' && i == i'
  {
    var s := k + ":" + i;
    assert s[|k|] == ':' && s[|k'|] == ':';
    assert !(|k| < |k'|) && !(|k'| < |k|);
    assert s[..|k|] == k && s[..|k'|] == k';
    assert s[|k| + 1..] == i && s[|k'| + 1..] == i';
  }

  lemma RefNamesObject(objects: seq<Object>, x: Object, y: Object)
    requires RefsAreDistinct(objects) && x in objects && y in objects && ObjectTarget(x).ref == ObjectTarget(y).ref
    ensures x == y
  {
    ColonSplits(x.kind, x.objectId, y.kind, y.objectId);
  }

  /** The events raise at most one item of each category, all of the given ones. */
  ghost predicate RaisesOnce(events: seq<Event>, categories: set<Category>) {
    && (forall x | Raised(x) in events :: x.Category() in categories)
    && (forall x, y | Raised(x) in events && Raised(y) in events && x.Category() == y.Category() :: x == y)
  }

  lemma Joined(a: seq<Event>, b: seq<Event>, ca: set<Category>, cb: set<Category>)
    returns (events: seq<Event>, categories: set<Category>)
    requires RaisesOnce(a, ca) && RaisesOnce(b, cb) && ca !! cb
    ensures events == a + b && categories == ca + cb && RaisesOnce(events, categories)
  {
    hide SpecOf;
    events, categories := a + b, ca + cb;
  }

  lemma AccessRaisesOnce(o: Object)
    ensures RaisesOnce(AccessSignals(o), {Access})
  {
  }

  lemma PlacementRaisesOnce(o: Object)
    ensures RaisesOnce(PlacementSignals(o), {Placement})
  {
  }

  lemma LifecycleRaisesOnce(o: Object)
    ensures RaisesOnce(LifecycleSignals(o), {Lifecycle})
  {
    hide IsAssetKind;
  }

  lemma ReleaseRaisesOnce(o: Object)
    ensures RaisesOnce(ReleaseSignals(o), {Release})
  {
  }

  lemma RecordsRaiseOnce(o: Object)
    ensures RaisesOnce(AccessSignals(o), {Access}) && RaisesOnce(PlacementSignals(o), {Placement})
    ensures RaisesOnce(LifecycleSignals(o), {Lifecycle}) && RaisesOnce(ReleaseSignals(o), {Release})
  {
    hide *;
    AccessRaisesOnce(o);
    PlacementRaisesOnce(o);
    LifecycleRaisesOnce(o);
    ReleaseRaisesOnce(o);
  }

  lemma ReviewsRaiseOnce(o: Object, ctx: Context)
    ensures RaisesOnce(ProvenanceSignals(o, ctx), {Provenance}) && RaisesOnce(KnowledgeSignals(o, ctx), {Knowledge})
  {
    hide IsPast, Code, DataText, Trimmed;
  }

  lemma RunbookRaisesOnce(o: Object, ctx: Context)
    ensures RaisesOnce(RunbookSignals(o, ctx), {Runbook})
  {
    hide IsPast, Code, DataText, Trimmed;
  }

  lemma ObservationRaisesOnce(o: Object, m: MonitoringView, ctx: Context)
    ensures RaisesOnce(ObservationSignals(o, m, ctx), {Monitoring})
  {
    hide Code;
  }

  lemma TargetRaisesOnce(o: Object, code: Option<string>)
    ensures RaisesOnce([Raise(o, EndpointTargetUnresolved, code, None)], {Endpoint})
    ensures RaisesOnce([Raise(o, MonitoringConfigInvalid, code, None)], {Monitoring})
  {
  }

  lemma MonitoringRaisesOnce(o: Object, ctx: Context)
    ensures RaisesOnce(MonitoringSignals(o, ctx), {Monitoring, Endpoint})
  {
    hide RaisesOnce, ObservationSignals, SpecOf;
    if o.monitoring.Some? {
      var m := o.monitoring.value;
      JudgedRaisesNothing(Monitoring);
      JudgedRaisesNothing(Endpoint);
      var judged, none := Joined([Judged(Monitoring)], [Judged(Endpoint)], {}, {});
      assert judged == [Judged(Monitoring), Judged(Endpoint)];
      ObservationRaisesOnce(o, m, ctx);
      TargetRaisesOnce(o, m.diagnostic);
      TargetRaisesOnce(o, Some("invalid_monitoring_config"));
      var target := [Raise(o, EndpointTargetUnresolved, m.diagnostic, None)];
      var e1, c1 := Joined(judged, [Raise(o, MonitoringConfigInvalid, Some("invalid_monitoring_config"), None)], none, {Monitoring});
      var e2, c2 := Joined(target, ObservationSignals(o, m, ctx), {Endpoint}, {Monitoring});
      var e3, c3 := Joined(judged, e2, none, c2);
      var e4, c4 := Joined(judged, ObservationSignals(o, m, ctx), none, {Monitoring});
      RaisesWithin(e1, c1, {Monitoring, Endpoint});
      RaisesWithin(e3, c3, {Monitoring, Endpoint});
      RaisesWithin(e4, c4, {Monitoring, Endpoint});
      assert [] + ObservationSignals(o, m, ctx) == ObservationSignals(o, m, ctx);
    }
    NothingIsRaised({Monitoring, Endpoint});
  }

  lemma NothingIsRaised(categories: set<Category>)
    ensures RaisesOnce([], categories)
  {
  }

  lemma RaisesWithin(events: seq<Event>, categories: set<Category>, more: set<Category>)
    requires RaisesOnce(events, categories) && categories <= more
    ensures RaisesOnce(events, more)
  {
    hide SpecOf;
  }

  const VALID_CATEGORIES: set<Category> := {Placement, Lifecycle, Monitoring, Endpoint, Release, Provenance, Runbook, Knowledge}

  lemma ValidRecordRaisesOnce(o: Object, ctx: Context)
    ensures RaisesOnce(ValidRecordSignals(o, ctx), VALID_CATEGORIES)
  {
    hide PlacementSignals, LifecycleSignals, MonitoringSignals, ReleaseSignals, ProvenanceSignals, RunbookSignals,
         KnowledgeSignals, RaisesOnce;
    RecordsRaiseOnce(o);
    ReviewsRaiseOnce(o, ctx);
    RunbookRaisesOnce(o, ctx);
    MonitoringRaisesOnce(o, ctx);
    var events, categories: set<Category> := [Judged(RelationshipIntegrity)], {};
    JudgedRaisesNothing(RelationshipIntegrity);
    events, categories := Joined(events, PlacementSignals(o), categories, {Placement});
    events, categories := Joined(events, LifecycleSignals(o), categories, {Lifecycle});
    events, categories := Joined(events, MonitoringSignals(o, ctx), categories, {Monitoring, Endpoint});
    events, categories := Joined(events, ReleaseSignals(o), categories, {Release});
    events, categories := Joined(events, ProvenanceSignals(o, ctx), categories, {Provenance});
    events, categories := Joined(events, RunbookSignals(o, ctx), categories, {Runbook});
    events, categories := Joined(events, KnowledgeSignals(o, ctx), categories, {Knowledge});
    assert categories == VALID_CATEGORIES;
  }

  lemma JudgedRaisesNothing(c: Category)
    ensures RaisesOnce([Judged(c)], {})
  {
  }

  lemma CorruptRecordRaisesOnce(o: Object, ctx: Context)
    ensures RaisesOnce(CorruptRecordSignals(o, ctx), {RecordIntegrity, Monitoring, Endpoint})
  {
    hide MonitoringSignals, IsLive;
    MonitoringRaisesOnce(o, ctx);
    var corrupt := [Raise(o, RecordCorrupt, None, None)];
    assert RaisesOnce(corrupt, {RecordIntegrity});
    var events, categories := Joined(corrupt, MonitoringSignals(o, ctx), {RecordIntegrity}, {Monitoring, Endpoint});
    assert corrupt + [] == corrupt;
  }

  const OBJECT_CATEGORIES: set<Category> := VALID_CATEGORIES + {Access, RecordIntegrity}

  /** An object raises at most one item of each category, and none of three categories. */
  lemma ObjectRaisesOnce(o: Object, ctx: Context)
    ensures RaisesOnce(ObjectSignals(o, ctx), OBJECT_CATEGORIES)
  {
    hide IsLive, AccessSignals, ValidRecordSignals, CorruptRecordSignals, RaisesOnce;
    RecordsRaiseOnce(o);
    ValidRecordRaisesOnce(o, ctx);
    CorruptRecordRaisesOnce(o, ctx);
    JudgedRaisesNothing(RecordIntegrity);
    var head, own := Joined(AccessSignals(o), [Judged(RecordIntegrity)], {Access}, {});
    var valid, validOnes := Joined(head, ValidRecordSignals(o, ctx), own, VALID_CATEGORIES);
    var corrupt, corruptOnes := Joined(head, CorruptRecordSignals(o, ctx), own, {RecordIntegrity, Monitoring, Endpoint});
    RaisesWithin(valid, validOnes, OBJECT_CATEGORIES);
    RaisesWithin(corrupt, corruptOnes, OBJECT_CATEGORIES);
    RaisesWithin(head, own, OBJECT_CATEGORIES);
    assert head + [] == head;
  }

  /** What an object raises for its placement carries no code. */
  lemma PlacementIsKnown(o: Object, ctx: Context, u: Item)
    requires Raised(u) in ObjectSignals(o, ctx) && u.Category() == Placement
    ensures u.code == None && u.reason == PlacementMissing
    ensures o.recordState == "valid" && IsLive(o) && o.placementState == Some("unknown")
  {
    hide IsLive, LifecycleSignals, MonitoringSignals, ReleaseSignals, ProvenanceSignals, RunbookSignals, KnowledgeSignals, AccessSignals;
    RecordsRaiseOnce(o);
    ReviewsRaiseOnce(o, ctx);
    RunbookRaisesOnce(o, ctx);
    MonitoringRaisesOnce(o, ctx);
  }

  lemma TaskShape(t: Task, labels: Labels, ctx: Context, u: Item)
    requires Raised(u) in TaskSignals(t, labels, ctx)
    ensures u.Category() == TaskDeadline && u.code == None
  {
  }

  lemma DiagnosticShape(d: Diagnostic, labels: Labels, u: Item)
    requires Raised(u) in DiagnosticSignals(d, labels)
    ensures IsCounted(d.objectId, labels) && u.target == ObjectTarget(labels[d.objectId]) && u.code == Some(d.code)
    ensures u.reason == DiagnosticReason(d, labels[d.objectId].kind) && u.Category() in {Placement, RelationshipIntegrity}
  {
    hide IsLive;
  }

  lemma CoverageShape(row: CoverageRow, labels: Labels, u: Item)
    requires Raised(u) in CoverageSignals(row, labels)
    ensures u.Category() == SourceCoverage && u.code == Some(row.state) && u.Rank() < 29
    ensures IsCounted(row.objectId, labels) && CoverageReason(row.state).Some?
  {
    hide IsLive;
  }

  lemma CatalogShape(collected: bool, u: Item)
    requires Raised(u) in CatalogSignals(collected)
    ensures u.Category() == SourceCoverage && u.code == None && u.Rank() == 29
  {
  }

  /** Where an item of the derivation comes from. */
  lemma SourceOf(input: Input, ctx: Context, u: Item)
    requires Raised(u) in Events(input, ctx)
    ensures || (exists o :: o in input.objects && Raised(u) in ObjectSignals(o, ctx))
            || Raised(u) in TaskEvents(input, ctx)
            || (exists d :: d in input.diagnostics && Raised(u) in DiagnosticSignals(d, LabelsOf(input.objects)))
            || (exists row :: row in input.coverage && Raised(u) in CoverageSignals(row, LabelsOf(input.objects)))
            || Raised(u) in CatalogSignals(input.collected)
  {
    hide FlatMap, LabelsOf, ObjectSignals, TaskSignals, DiagnosticSignals, CoverageSignals, CatalogSignals, Events, TaskEvents;
    EventsAreSections(input, ctx);
    var labels := LabelsOf(input.objects);
    FlatMapMember(ObjectTrace(ctx), input.objects, Raised(u));
    FlatMapMember(DiagnosticTrace(labels), input.diagnostics, Raised(u));
    FlatMapMember(CoverageTrace(labels), input.coverage, Raised(u));
  }

  lemma TaskEventShape(input: Input, ctx: Context, u: Item)
    requires Raised(u) in TaskEvents(input, ctx)
    ensures u.Category() == TaskDeadline && u.code == None
  {
    hide FlatMap, LabelsOf, TaskSignals, SpecOf;
    var labels := LabelsOf(input.objects);
    FlatMapMember(TaskTrace(labels, ctx), input.tasks, Raised(u));
    var t :| t in input.tasks && Raised(u) in TaskSignals(t, labels, ctx);
    TaskShape(t, labels, ctx, u);
  }

  // Clean traces.

  /** In a clean trace, an item with an unknown code follows one with a known code that suppresses it. */
  lemma {:induction false} KnownBefore(events: seq<Event>, k: nat, ctx: Context) returns (j: nat)
    requires IsClean(events, ctx) && k < |events| && events[k].Raised? && !CodeIsKnown(events[k].item, ctx)
    ensures j < k && events[j].Raised? && CodeIsKnown(events[j].item, ctx) && Beats(events[j].item, events[k].item)
    decreases k
  {
    hide SpecOf;
    CleanIff(events, ctx);
    j :| 0 <= j < k && events[j].Raised? && SlotOf(events[j].item) == SlotOf(events[k].item)
         && events[j].item.Rank() <= events[k].item.Rank();
    if !CodeIsKnown(events[j].item, ctx) {
      j := KnownBefore(events, j, ctx);
    }
  }

  /** A trace stays clean when what follows is known or covered by it. */
  lemma CoveredIsClean(before: seq<Event>, more: seq<Event>, ctx: Context)
    requires IsClean(before, ctx)
    requires forall u | IsUnknown(more, u, ctx) :: Covers(before, u, ctx)
    ensures IsClean(before + more, ctx)
  {
    hide SpecOf, IsClean, CodeIsKnown;
    var all := before + more;
    CleanIff(before, ctx);
    CleanIff(all, ctx);
    forall k | 0 <= k < |all| && all[k].Raised? && !CodeIsKnown(all[k].item, ctx)
      ensures exists j | 0 <= j < k :: all[j].Raised? && SlotOf(all[j].item) == SlotOf(all[k].item)
                                       && all[j].item.Rank() <= all[k].item.Rank()
    {
      if k < |before| {
        assert all[k] == before[k];
        var j :| 0 <= j < k && before[j].Raised? && SlotOf(before[j].item) == SlotOf(before[k].item)
                 && before[j].item.Rank() <= before[k].item.Rank();
        assert all[j] == before[j];
      } else {
        assert all[k] == more[k - |before|];
        assert IsUnknown(more, all[k].item, ctx);
        var v :| Raised(v) in before && CodeIsKnown(v, ctx) && Beats(v, all[k].item);
        var j :| 0 <= j < |before| && before[j] == Raised(v);
        assert all[j] == Raised(v);
      }
    }
  }

  lemma NothingIsClean(ctx: Context)
    ensures IsClean([], ctx)
  {
  }

  lemma CoversMore(a: seq<Event>, b: seq<Event>, u: Item, ctx: Context)
    requires Covers(a, u, ctx) && forall e | e in a :: e in b
    ensures Covers(b, u, ctx)
  {
    hide SpecOf, CodeIsKnown;
  }

  // Every order.

  /** Every item with an unknown code is suppressed by one that an object itself raises. */
  ghost predicate CoveredByObjects(input: Input, ctx: Context) {
    forall u | IsUnknown(Events(input, ctx), u, ctx) :: Covers(ObjectEvents(input, ctx), u, ctx)
  }

  /** Every item with an unknown code is suppressed by one with a known code. */
  ghost predicate CoveredByKnown(input: Input, ctx: Context) {
    forall u | IsUnknown(Events(input, ctx), u, ctx) :: Covers(Events(input, ctx), u, ctx)
  }

  /** Nothing can cover an unknown item of an object but itself. */
  lemma ObjectsAreKnown(input: Input, ctx: Context)
    requires RefsAreDistinct(input.objects) && CoveredByKnown(input, ctx)
    ensures AllKnown(ObjectEvents(input, ctx), ctx)
  {
    hide ObjectEvents, TaskEvents, ObjectSignals, DiagnosticSignals, CoverageSignals, CatalogSignals, Events, SpecOf, CodeIsKnown, IsLive,
         RaisesOnce, LabelsOf;
    forall u ensures !IsUnknown(ObjectEvents(input, ctx), u, ctx) {
      if IsUnknown(ObjectEvents(input, ctx), u, ctx) {
        var o := ObjectOf(input, ctx, u);
        InEvents(input, ctx, Raised(u));
        assert IsUnknown(Events(input, ctx), u, ctx);
        assert Covers(Events(input, ctx), u, ctx);
        var v :| Raised(v) in Events(input, ctx) && CodeIsKnown(v, ctx) && Beats(v, u);
        OnlyItself(input, ctx, o, u, v);
      }
    }
  }

  lemma ObjectOf(input: Input, ctx: Context, u: Item) returns (o: Object)
    requires Raised(u) in ObjectEvents(input, ctx)
    ensures o in input.objects && Raised(u) in ObjectSignals(o, ctx)
  {
    hide FlatMap, ObjectSignals;
    FlatMapMember(ObjectTrace(ctx), input.objects, Raised(u));
    o :| o in input.objects && Raised(u) in ObjectSignals(o, ctx);
  }

  lemma ObjectOfEvent(input: Input, ctx: Context, o: Object, e: Event)
    requires o in input.objects && e in ObjectSignals(o, ctx)
    ensures e in ObjectEvents(input, ctx)
  {
    hide FlatMap, ObjectSignals;
    FlatMapMember(ObjectTrace(ctx), input.objects, e);
  }

  lemma InEvents(input: Input, ctx: Context, e: Event)
    ensures e in ObjectEvents(input, ctx) ==> e in Events(input, ctx)
    ensures e in DiagnosticEvents(input) || e in CoverageEvents(input) ==> e in Events(input, ctx)
  {
    hide Events, ObjectEvents, TaskEvents, DiagnosticEvents, CoverageEvents, CatalogSignals;
    EventsAreSections(input, ctx);
  }

  /** Of the slot of an object's item with an unknown code, nothing is raised but that item. */
  lemma OnlyItself(input: Input, ctx: Context, o: Object, u: Item, v: Item)
    requires RefsAreDistinct(input.objects) && o in input.objects
    requires Raised(u) in ObjectSignals(o, ctx) && !CodeIsKnown(u, ctx)
    requires Raised(v) in Events(input, ctx) && SlotOf(v) == SlotOf(u)
    ensures v == u
  {
    hide ObjectSignals, DiagnosticSignals, CoverageSignals, CatalogSignals, Events, SpecOf, IsLive, LabelsOf, TaskEvents;
    QuietUnlessLive(o, ctx, u);
    ObjectRaisesOnce(o, ctx);
    if u.Category() == Placement {
      PlacementIsKnown(o, ctx, u);
    }
    SourceOf(input, ctx, v);
    if x :| x in input.objects && Raised(v) in ObjectSignals(x, ctx) {
      QuietUnlessLive(x, ctx, v);
      RefNamesObject(input.objects, o, x);
    } else if Raised(v) in TaskEvents(input, ctx) {
      TaskEventShape(input, ctx, v);
    } else if d :| d in input.diagnostics && Raised(v) in DiagnosticSignals(d, LabelsOf(input.objects)) {
      DiagnosticShape(d, LabelsOf(input.objects), v);
    } else if row :| row in input.coverage && Raised(v) in CoverageSignals(row, LabelsOf(input.objects)) {
      CoverageShape(row, LabelsOf(input.objects), v);
    } else {
      CatalogShape(input.collected, v);
    }
  }

  lemma KnownPart(before: seq<Event>, more: seq<Event>, ctx: Context)
    requires IsClean(before, ctx) && AllKnown(more, ctx)
    ensures IsClean(before + more, ctx)
  {
    hide IsClean, Covers;
    CoveredIsClean(before, more, ctx);
  }

  lemma CoveredPart(before: seq<Event>, more: seq<Event>, base: seq<Event>, ctx: Context)
    requires IsClean(before, ctx) && forall e | e in base :: e in before
    requires forall u | IsUnknown(more, u, ctx) :: Covers(base, u, ctx)
    ensures IsClean(before + more, ctx)
  {
    hide IsClean, Covers;
    forall u | IsUnknown(more, u, ctx) ensures Covers(before, u, ctx) {
      CoversMore(base, before, u, ctx);
    }
    CoveredIsClean(before, more, ctx);
  }

  lemma TasksAreKnown(input: Input, ctx: Context)
    ensures AllKnown(TaskEvents(input, ctx), ctx)
  {
    hide TaskEvents, SpecOf;
    forall u ensures !IsUnknown(TaskEvents(input, ctx), u, ctx) {
      if Raised(u) in TaskEvents(input, ctx) {
        TaskEventShape(input, ctx, u);
      }
    }
  }

  lemma CatalogIsKnown(collected: bool, ctx: Context)
    ensures AllKnown(CatalogSignals(collected), ctx)
  {
    hide SpecOf;
  }

  /** Objects raise nothing for source coverage. */
  lemma ObjectsLeaveCoverage(input: Input, ctx: Context, u: Item)
    requires u.Category() == SourceCoverage
    ensures !Covers(ObjectEvents(input, ctx), u, ctx)
  {
    hide ObjectEvents, ObjectSignals, SpecOf, CodeIsKnown;
    if v :| Raised(v) in ObjectEvents(input, ctx) && CodeIsKnown(v, ctx) && Beats(v, u) {
      var o := ObjectOf(input, ctx, v);
      ObjectRaisesOnce(o, ctx);
      assert false;
    }
  }

  lemma CoverageSource(input: Input, u: Item) returns (row: CoverageRow)
    requires Raised(u) in CoverageEvents(input)
    ensures row in input.coverage && Raised(u) in CoverageSignals(row, LabelsOf(input.objects))
    ensures u.Category() == SourceCoverage && u.code == Some(row.state) && u.Rank() < 29
  {
    hide FlatMap, LabelsOf, CoverageSignals, SpecOf;
    var labels := LabelsOf(input.objects);
    FlatMapMember(CoverageTrace(labels), input.coverage, Raised(u));
    row :| row in input.coverage && Raised(u) in CoverageSignals(row, labels);
    CoverageShape(row, labels, u);
  }

  lemma DiagnosticSource(input: Input, u: Item) returns (d: Diagnostic)
    requires Raised(u) in DiagnosticEvents(input)
    ensures d in input.diagnostics && Raised(u) in DiagnosticSignals(d, LabelsOf(input.objects))
    ensures u.Category() in {Placement, RelationshipIntegrity} && u.code == Some(d.code)
  {
    hide FlatMap, LabelsOf, DiagnosticSignals, SpecOf;
    var labels := LabelsOf(input.objects);
    FlatMapMember(DiagnosticTrace(labels), input.diagnostics, Raised(u));
    d :| d in input.diagnostics && Raised(u) in DiagnosticSignals(d, labels);
    DiagnosticShape(d, labels, u);
  }

  /** Covered by objects, an input is accepted as it stands. */
  lemma CoveredIsAccepted(input: Input, ctx: Context)
    requires RefsAreDistinct(input.objects) && CoveredByObjects(input, ctx)
    ensures IsClean(Events(input, ctx), ctx)
  {
    hide ObjectEvents, TaskEvents, DiagnosticEvents, CoverageEvents, CatalogSignals, Events, IsClean, Covers, LabelsOf, RefsAreDistinct;
    var objects, tasks, diagnostics := ObjectEvents(input, ctx), TaskEvents(input, ctx), DiagnosticEvents(input);
    var coverage := CoverageEvents(input);
    CoveredByAll(input, ctx);
    ObjectsAreKnown(input, ctx);
    TasksAreKnown(input, ctx);
    CatalogIsKnown(input.collected, ctx);
    NothingIsClean(ctx);
    KnownPart([], objects, ctx);
    assert [] + objects == objects;
    KnownPart(objects, tasks, ctx);
    forall u | IsUnknown(diagnostics, u, ctx) ensures Covers(objects, u, ctx) {
      InEvents(input, ctx, Raised(u));
      assert IsUnknown(Events(input, ctx), u, ctx);
    }
    CoveredPart(objects + tasks, diagnostics, objects, ctx);
    forall u ensures !IsUnknown(coverage, u, ctx) {
      if IsUnknown(coverage, u, ctx) {
        InEvents(input, ctx, Raised(u));
        assert IsUnknown(Events(input, ctx), u, ctx);
        var row := CoverageSource(input, u);
        ObjectsLeaveCoverage(input, ctx, u);
      }
    }
    KnownPart(objects + tasks + diagnostics, coverage, ctx);
    KnownPart(objects + tasks + diagnostics + coverage, CatalogSignals(input.collected), ctx);
    EventsAreSections(input, ctx);
  }

  lemma CoveredByAll(input: Input, ctx: Context)
    requires CoveredByObjects(input, ctx)
    ensures CoveredByKnown(input, ctx)
  {
    hide ObjectEvents, Events, Covers;
    forall u | IsUnknown(Events(input, ctx), u, ctx) ensures Covers(Events(input, ctx), u, ctx) {
      forall e | e in ObjectEvents(input, ctx) ensures e in Events(input, ctx) {
        InEvents(input, ctx, e);
      }
      CoversMore(ObjectEvents(input, ctx), Events(input, ctx), u, ctx);
    }
  }

  // Permutations.

  lemma Forward<T>(s: seq<T>, x: T) returns (t: seq<T>)
    requires x in s
    ensures multiset([x] + t) == multiset(s)
  {
    var i :| 0 <= i < |s| && s[i] == x;
    t := s[..i] + s[i + 1..];
    assert s == s[..i] + [x] + s[i + 1..];
  }

  function Select<T(!new)>(p: T -> bool, s: seq<T>): (r: seq<T>)
    ensures forall x :: x in r <==> x in s && p(x)
  {
    if s == [] then []
    else
      assert s == s[..|s| - 1] + [s[|s| - 1]];
      Select(p, s[..|s| - 1]) + if p(s[|s| - 1]) then [s[|s| - 1]] else []
  }

  lemma {:induction false} SelectSplits<T(!new)>(p: T -> bool, q: T -> bool, s: seq<T>)
    requires forall x :: q(x) == !p(x)
    ensures multiset(Select(p, s)) + multiset(Select(q, s)) == multiset(s)
  {
    hide Select;
    if s == [] {
      NothingSelected(p);
      NothingSelected(q);
    } else {
      var front, last := s[..|s| - 1], s[|s| - 1];
      SelectSplits(p, q, front);
      SelectStep(p, s, front, last);
      SelectStep(q, s, front, last);
      assert s == front + [last];
    }
  }

  lemma NothingSelected<T(!new)>(p: T -> bool)
    ensures Select(p, []) == []
  {
  }

  lemma SelectStep<T(!new)>(p: T -> bool, s: seq<T>, front: seq<T>, last: T)
    requires s != [] && front == s[..|s| - 1] && last == s[|s| - 1]
    ensures multiset(Select(p, s)) == multiset(Select(p, front)) + if p(last) then multiset{last} else multiset{}
  {
  }

  /** Permuted inputs hold the same events, so they are covered alike. */
  lemma PermutedAlike(a: Input, b: Input, ctx: Context)
    requires Permuted(a, b) && IdsAreDistinct(a.objects)
    ensures forall e :: e in Events(a, ctx) <==> e in Events(b, ctx)
    ensures forall e :: e in ObjectEvents(a, ctx) <==> e in ObjectEvents(b, ctx)
    ensures LabelsOf(a.objects) == LabelsOf(b.objects)
  {
    hide Events, ObjectSignals, FlatMap, LabelsOf;
    EventsForgetOrder(a, b, ctx);
    MultisetMembers(Events(a, ctx), Events(b, ctx));
    LabelsForgetOrder(a.objects, b.objects);
    MultisetMembers(a.objects, b.objects);
    forall e ensures e in ObjectEvents(a, ctx) <==> e in ObjectEvents(b, ctx) {
      FlatMapMember(ObjectTrace(ctx), a.objects, e);
      FlatMapMember(ObjectTrace(ctx), b.objects, e);
    }
  }

  lemma PermutedRefs(a: Input, b: Input)
    requires Permuted(a, b) && RefsAreDistinct(a.objects)
    ensures RefsAreDistinct(b.objects)
  {
    MultisetMembers(a.objects, b.objects);
  }

  /** In a clean derivation, what a section raises first is covered by the sections before it. */
  lemma CoveredBefore(events: seq<Event>, before: seq<Event>, trace: seq<Event>, u: Item, ctx: Context)
    requires IsClean(events, ctx) && before + trace <= events && IsUnknown(trace, u, ctx)
    ensures Covers(before + trace, u, ctx)
  {
    hide IsClean, SpecOf, CodeIsKnown;
    var k :| 0 <= k < |trace| && trace[k] == Raised(u);
    assert events[|before| + k] == Raised(u);
    var j := KnownBefore(events, |before| + k, ctx);
    assert (before + trace)[j] == events[j];
    assert Raised(events[j].item) in before + trace;
  }

  lemma FirstOfSection<T>(f: T -> seq<Event>, x: T, t: seq<T>, before: seq<Event>, after: seq<Event>)
    ensures before + f(x) <= before + FlatMap(f, [x] + t) + after
  {
    hide FlatMap;
    FlatMapJoin(f, [x], t);
    FlatMapOne(f, x);
  }

  lemma FlatMapOne<T>(f: T -> seq<Event>, x: T)
    ensures FlatMap(f, [x]) == f(x)
  {
    assert [x][..0] == [];
  }

  ghost predicate AcceptedInEveryOrder(input: Input, ctx: Context) {
    forall b | Permuted(input, b) :: IsClean(Events(b, ctx), ctx)
  }

  lemma ObjectFirst(a: Input, ctx: Context, o: Object, u: Item)
    requires IdsAreDistinct(a.objects) && AcceptedInEveryOrder(a, ctx) && o in a.objects && IsUnknown(ObjectSignals(o, ctx), u, ctx)
    ensures Covers(ObjectEvents(a, ctx), u, ctx)
  {
    hide ObjectSignals, TaskEvents, DiagnosticEvents, CoverageEvents, CatalogSignals, Events, IsClean, Covers, FlatMap, LabelsOf;
    var t := Forward(a.objects, o);
    var b := a.(objects := [o] + t);
    EventsAreSections(b, ctx);
    var after := TaskEvents(b, ctx) + DiagnosticEvents(b) + CoverageEvents(b) + CatalogSignals(b.collected);
    FirstOfSection(ObjectTrace(ctx), o, t, [], after);
    assert Events(b, ctx) == [] + ObjectEvents(b, ctx) + after;
    CoveredBefore(Events(b, ctx), [], ObjectSignals(o, ctx), u, ctx);
    assert [] + ObjectSignals(o, ctx) == ObjectSignals(o, ctx);
    forall e | e in ObjectSignals(o, ctx) ensures e in ObjectEvents(a, ctx) {
      ObjectOfEvent(a, ctx, o, e);
    }
    CoversMore(ObjectSignals(o, ctx), ObjectEvents(a, ctx), u, ctx);
  }

  lemma DiagnosticFirst(a: Input, ctx: Context, d: Diagnostic, u: Item)
    requires AcceptedInEveryOrder(a, ctx) && d in a.diagnostics && IsUnknown(DiagnosticSignals(d, LabelsOf(a.objects)), u, ctx)
    ensures Covers(ObjectEvents(a, ctx), u, ctx)
  {
    hide ObjectEvents, TaskEvents, CoverageEvents, CatalogSignals, Events, IsClean, FlatMap, LabelsOf, SpecOf, CodeIsKnown;
    hide DiagnosticSignals;
    var t := Forward(a.diagnostics, d);
    var b := a.(diagnostics := [d] + t);
    SameObjectsSameEvents(a, b, ctx);
    EventsAreSections(b, ctx);
    var before, after := ObjectEvents(b, ctx) + TaskEvents(b, ctx), CoverageEvents(b) + CatalogSignals(b.collected);
    var trace := DiagnosticSignals(d, LabelsOf(a.objects));
    FirstOfSection(DiagnosticTrace(LabelsOf(a.objects)), d, t, before, after);
    assert Events(b, ctx) == before + DiagnosticEvents(b) + after;
    CoveredBefore(Events(b, ctx), before, trace, u, ctx);
    var v :| Raised(v) in before + trace && CodeIsKnown(v, ctx) && Beats(v, u);
    OneFinding(d, LabelsOf(a.objects));
    DiagnosticShape(d, LabelsOf(a.objects), u);
    if Raised(v) in TaskEvents(b, ctx) {
      TaskEventShape(b, ctx, v);
    }
    assert Raised(v) in ObjectEvents(a, ctx);
  }

  lemma OneFinding(d: Diagnostic, labels: Labels)
    ensures |DiagnosticSignals(d, labels)| <= 1
  {
    hide IsCounted;
  }

  lemma SameObjectsSameEvents(a: Input, b: Input, ctx: Context)
    requires a.objects == b.objects
    ensures ObjectEvents(a, ctx) == ObjectEvents(b, ctx)
    ensures a.tasks == b.tasks ==> TaskEvents(a, ctx) == TaskEvents(b, ctx)
    ensures a.diagnostics == b.diagnostics ==> DiagnosticEvents(a) == DiagnosticEvents(b)
    ensures a.coverage == b.coverage ==> CoverageEvents(a) == CoverageEvents(b)
  {
    hide FlatMap, LabelsOf;
  }

  lemma OneRow(row: CoverageRow, labels: Labels)
    ensures forall x, y | Raised(x) in CoverageSignals(row, labels) && Raised(y) in CoverageSignals(row, labels) :: x == y
  {
    hide IsCounted;
  }

  lemma RowFirst(a: Input, ctx: Context, row: CoverageRow, u: Item)
    requires AcceptedInEveryOrder(a, ctx) && row in a.coverage && IsUnknown(CoverageSignals(row, LabelsOf(a.objects)), u, ctx)
    ensures Covers(ObjectEvents(a, ctx), u, ctx)
  {
    hide ObjectEvents, TaskEvents, DiagnosticEvents, CatalogSignals, Events, IsClean, FlatMap, LabelsOf, SpecOf, CodeIsKnown;
    hide CoverageSignals;
    var t := Forward(a.coverage, row);
    var b := a.(coverage := [row] + t);
    SameObjectsSameEvents(a, b, ctx);
    EventsAreSections(b, ctx);
    var before := ObjectEvents(b, ctx) + TaskEvents(b, ctx) + DiagnosticEvents(b);
    var trace := CoverageSignals(row, LabelsOf(a.objects));
    FirstOfSection(CoverageTrace(LabelsOf(a.objects)), row, t, before, CatalogSignals(b.collected));
    CoveredBefore(Events(b, ctx), before, trace, u, ctx);
    var v :| Raised(v) in before + trace && CodeIsKnown(v, ctx) && Beats(v, u);
    OneRow(row, LabelsOf(a.objects));
    CoverageShape(row, LabelsOf(a.objects), u);
    if Raised(v) in TaskEvents(b, ctx) {
      TaskEventShape(b, ctx, v);
    } else if Raised(v) in DiagnosticEvents(b) {
      var d := DiagnosticSource(b, v);
    }
    assert Raised(v) in ObjectEvents(a, ctx);
  }

  /** An input is accepted in every order of its lists exactly when every item with an unknown code is
      suppressed by one that an object raises itself. */
  lemma EveryOrderIff(input: Input, ctx: Context)
    requires RefsAreDistinct(input.objects)
    ensures AcceptedInEveryOrder(input, ctx) <==> CoveredByObjects(input, ctx)
  {
    hide ObjectEvents, Events, IsClean, Covers, RefsAreDistinct, Permuted, ObjectSignals, TaskEvents, DiagnosticSignals, CoverageSignals,
         CatalogSignals, LabelsOf, SpecOf, CodeIsKnown;
    DistinctRefsHaveDistinctIds(input);
    if CoveredByObjects(input, ctx) {
      forall b | Permuted(input, b) ensures IsClean(Events(b, ctx), ctx) {
        PermutedRefs(input, b);
        PermutedAlike(input, b, ctx);
        forall u | IsUnknown(Events(b, ctx), u, ctx) ensures Covers(ObjectEvents(b, ctx), u, ctx) {
          assert IsUnknown(Events(input, ctx), u, ctx);
          CoversMore(ObjectEvents(input, ctx), ObjectEvents(b, ctx), u, ctx);
        }
        CoveredIsAccepted(b, ctx);
      }
    }
    if AcceptedInEveryOrder(input, ctx) {
      forall u | IsUnknown(Events(input, ctx), u, ctx) ensures Covers(ObjectEvents(input, ctx), u, ctx) {
        CoveredWhereRaised(input, ctx, u);
      }
    }
  }

  lemma DistinctRefsHaveDistinctIds(input: Input)
    requires RefsAreDistinct(input.objects)
    ensures IdsAreDistinct(input.objects)
  {
  }

  lemma CoveredWhereRaised(input: Input, ctx: Context, u: Item)
    requires IdsAreDistinct(input.objects) && AcceptedInEveryOrder(input, ctx) && IsUnknown(Events(input, ctx), u, ctx)
    ensures Covers(ObjectEvents(input, ctx), u, ctx)
  {
    hide ObjectEvents, Events, IdsAreDistinct, ObjectSignals, TaskEvents, DiagnosticSignals, CoverageSignals, CatalogSignals,
         LabelsOf, SpecOf, AcceptedInEveryOrder, Covers;
    SourceOf(input, ctx, u);
    if o :| o in input.objects && Raised(u) in ObjectSignals(o, ctx) {
      ObjectFirst(input, ctx, o, u);
    } else if d :| d in input.diagnostics && Raised(u) in DiagnosticSignals(d, LabelsOf(input.objects)) {
      DiagnosticFirst(input, ctx, d, u);
    } else if row :| row in input.coverage && Raised(u) in CoverageSignals(row, LabelsOf(input.objects)) {
      RowFirst(input, ctx, row, u);
    } else if Raised(u) in TaskEvents(input, ctx) {
      TaskEventShape(input, ctx, u);
      assert false;
    } else {
      CatalogShape(input.collected, u);
      assert false;
    }
  }

  // Some order.

  function KnownCode(ctx: Context): Diagnostic -> bool {
    (d: Diagnostic) => d.code in ctx.codes
  }

  function UnknownCode(ctx: Context): Diagnostic -> bool {
    (d: Diagnostic) => !KnownCode(ctx)(d)
  }

  function KnownState(ctx: Context): CoverageRow -> bool {
    (row: CoverageRow) => row.state in ctx.codes
  }

  function UnknownState(ctx: Context): CoverageRow -> bool {
    (row: CoverageRow) => !KnownState(ctx)(row)
  }

  /** The same input with the diagnostics and rows of known codes in front. */
  function KnownFirst(input: Input, ctx: Context): Input {
    input.(diagnostics := Select(KnownCode(ctx), input.diagnostics) + Select(UnknownCode(ctx), input.diagnostics),
           coverage := Select(KnownState(ctx), input.coverage) + Select(UnknownState(ctx), input.coverage))
  }

  lemma KnownFirstIsPermuted(input: Input, ctx: Context)
    ensures Permuted(input, KnownFirst(input, ctx))
  {
    hide Select;
    SelectSplits(KnownCode(ctx), UnknownCode(ctx), input.diagnostics);
    SelectSplits(KnownState(ctx), UnknownState(ctx), input.coverage);
  }

  /** An unknown item of a diagnostic is covered by an object or by a diagnostic with a known code. */
  lemma DiagnosticCover(input: Input, ctx: Context, u: Item)
    requires CoveredByKnown(input, ctx) && IsUnknown(DiagnosticEvents(input), u, ctx)
    ensures var f := DiagnosticTrace(LabelsOf(input.objects));
            Covers(ObjectEvents(input, ctx) + FlatMap(f, Select(KnownCode(ctx), input.diagnostics)), u, ctx)
  {
    hide ObjectEvents, TaskEvents, DiagnosticEvents, CoverageEvents, CatalogSignals, Events, FlatMap, LabelsOf, SpecOf, DiagnosticSignals;
    hide Select;
    InEvents(input, ctx, Raised(u));
    assert IsUnknown(Events(input, ctx), u, ctx);
    assert Covers(Events(input, ctx), u, ctx);
    var v :| Raised(v) in Events(input, ctx) && CodeIsKnown(v, ctx) && Beats(v, u);
    var d := DiagnosticSource(input, u);
    EventsAreSections(input, ctx);
    var f := DiagnosticTrace(LabelsOf(input.objects));
    if Raised(v) in ObjectEvents(input, ctx) {
    } else if Raised(v) in DiagnosticEvents(input) {
      var d' := DiagnosticSource(input, v);
      FlatMapMember(f, Select(KnownCode(ctx), input.diagnostics), Raised(v));
    } else if Raised(v) in TaskEvents(input, ctx) {
      TaskEventShape(input, ctx, v);
    } else if Raised(v) in CoverageEvents(input) {
      var row := CoverageSource(input, v);
    } else {
      CatalogShape(input.collected, v);
    }
  }

  /** An unknown item of a coverage row is covered by a row with a known code. */
  lemma CoverageCover(input: Input, ctx: Context, u: Item)
    requires CoveredByKnown(input, ctx) && IsUnknown(CoverageEvents(input), u, ctx)
    ensures Covers(FlatMap(CoverageTrace(LabelsOf(input.objects)), Select(KnownState(ctx), input.coverage)), u, ctx)
  {
    hide ObjectEvents, TaskEvents, DiagnosticEvents, CoverageEvents, CatalogSignals, Events, FlatMap, LabelsOf, SpecOf, CoverageSignals;
    hide Select, ObjectSignals;
    InEvents(input, ctx, Raised(u));
    assert IsUnknown(Events(input, ctx), u, ctx);
    assert Covers(Events(input, ctx), u, ctx);
    var v :| Raised(v) in Events(input, ctx) && CodeIsKnown(v, ctx) && Beats(v, u);
    var row := CoverageSource(input, u);
    EventsAreSections(input, ctx);
    var f := CoverageTrace(LabelsOf(input.objects));
    if Raised(v) in ObjectEvents(input, ctx) {
      var o := ObjectOf(input, ctx, v);
      ObjectRaisesOnce(o, ctx);
    } else if Raised(v) in DiagnosticEvents(input) {
      var d := DiagnosticSource(input, v);
    } else if Raised(v) in TaskEvents(input, ctx) {
      TaskEventShape(input, ctx, v);
    } else if Raised(v) in CoverageEvents(input) {
      var row' := CoverageSource(input, v);
      FlatMapMember(f, Select(KnownState(ctx), input.coverage), Raised(v));
    } else {
      CatalogShape(input.collected, v);
    }
  }

  lemma SelectedDiagnosticsAreKnown(input: Input, ctx: Context)
    ensures AllKnown(FlatMap(DiagnosticTrace(LabelsOf(input.objects)), Select(KnownCode(ctx), input.diagnostics)), ctx)
  {
    hide FlatMap, LabelsOf, SpecOf, Select, DiagnosticSignals;
    var labels := LabelsOf(input.objects);
    var s := Select(KnownCode(ctx), input.diagnostics);
    forall u ensures !IsUnknown(FlatMap(DiagnosticTrace(labels), s), u, ctx) {
      FlatMapMember(DiagnosticTrace(labels), s, Raised(u));
      if d :| d in s && Raised(u) in DiagnosticSignals(d, labels) {
        DiagnosticShape(d, labels, u);
      }
    }
  }

  lemma SelectedRowsAreKnown(input: Input, ctx: Context)
    ensures AllKnown(FlatMap(CoverageTrace(LabelsOf(input.objects)), Select(KnownState(ctx), input.coverage)), ctx)
  {
    hide FlatMap, LabelsOf, SpecOf, Select, CoverageSignals;
    var labels := LabelsOf(input.objects);
    var s := Select(KnownState(ctx), input.coverage);
    forall u ensures !IsUnknown(FlatMap(CoverageTrace(labels), s), u, ctx) {
      FlatMapMember(CoverageTrace(labels), s, Raised(u));
      if row :| row in s && Raised(u) in CoverageSignals(row, labels) {
        CoverageShape(row, labels, u);
      }
    }
  }

  lemma FlatMapPart<T(!new)>(f: T -> seq<Event>, p: T -> bool, s: seq<T>, e: Event)
    ensures e in FlatMap(f, Select(p, s)) ==> e in FlatMap(f, s)
  {
    hide FlatMap, Select;
    FlatMapMember(f, Select(p, s), e);
    FlatMapMember(f, s, e);
  }

  /** With the known codes in front, an input covered by known codes is accepted. */
  lemma KnownFirstIsAccepted(input: Input, ctx: Context)
    requires RefsAreDistinct(input.objects) && CoveredByKnown(input, ctx)
    ensures IsClean(Events(KnownFirst(input, ctx), ctx), ctx)
  {
    hide ObjectEvents, TaskEvents, CatalogSignals, Events, IsClean, Covers, LabelsOf, RefsAreDistinct, FlatMap, Select, AllKnown,
         CoveredByKnown;
    var b, labels := KnownFirst(input, ctx), LabelsOf(input.objects);
    var objects, tasks := ObjectEvents(input, ctx), TaskEvents(input, ctx);
    var f, g := DiagnosticTrace(labels), CoverageTrace(labels);
    var d1, d2 := FlatMap(f, Select(KnownCode(ctx), input.diagnostics)), FlatMap(f, Select(UnknownCode(ctx), input.diagnostics));
    var c1, c2 := FlatMap(g, Select(KnownState(ctx), input.coverage)), FlatMap(g, Select(UnknownState(ctx), input.coverage));
    ObjectsAreKnown(input, ctx);
    TasksAreKnown(input, ctx);
    CatalogIsKnown(input.collected, ctx);
    SelectedDiagnosticsAreKnown(input, ctx);
    SelectedRowsAreKnown(input, ctx);
    NothingIsClean(ctx);
    KnownPart([], objects, ctx);
    assert [] + objects == objects;
    KnownPart(objects, tasks, ctx);
    KnownPart(objects + tasks, d1, ctx);
    forall u | IsUnknown(d2, u, ctx) ensures Covers(objects + d1, u, ctx) {
      FlatMapPart(f, UnknownCode(ctx), input.diagnostics, Raised(u));
      DiagnosticCover(input, ctx, u);
    }
    CoveredPart(objects + tasks + d1, d2, objects + d1, ctx);
    KnownPart(objects + tasks + d1 + d2, c1, ctx);
    forall u | IsUnknown(c2, u, ctx) ensures Covers(c1, u, ctx) {
      FlatMapPart(g, UnknownState(ctx), input.coverage, Raised(u));
      CoverageCover(input, ctx, u);
    }
    CoveredPart(objects + tasks + d1 + d2 + c1, c2, c1, ctx);
    KnownPart(objects + tasks + d1 + d2 + c1 + c2, CatalogSignals(input.collected), ctx);
    SameObjectsSameEvents(input, b, ctx);
    EventsAreSections(b, ctx);
    FlatMapJoin(f, Select(KnownCode(ctx), input.diagnostics), Select(UnknownCode(ctx), input.diagnostics));
    FlatMapJoin(g, Select(KnownState(ctx), input.coverage), Select(UnknownState(ctx), input.coverage));
    assert Events(b, ctx) == objects + tasks + (d1 + d2) + (c1 + c2) + CatalogSignals(input.collected);
    assert Events(b, ctx) == objects + tasks + d1 + d2 + c1 + c2 + CatalogSignals(input.collected);
  }

  lemma CleanIsCovered(b: Input, ctx: Context)
    requires IsClean(Events(b, ctx), ctx)
    ensures CoveredByKnown(b, ctx)
  {
    hide Events, IsClean, SpecOf, CodeIsKnown;
    var events := Events(b, ctx);
    forall u | IsUnknown(events, u, ctx) ensures Covers(events, u, ctx) {
      assert [] + events == events;
      CoveredBefore(events, [], events, u, ctx);
    }
  }

  /** An input is accepted in some order of its lists, and so not rejected in all of them, exactly when
      every item with an unknown code is suppressed by one with a known code, wherever it comes from. */
  lemma SomeOrderIff(input: Input, ctx: Context)
    requires RefsAreDistinct(input.objects)
    ensures (exists b :: Permuted(input, b) && IsClean(Events(b, ctx), ctx)) <==> CoveredByKnown(input, ctx)
  {
    hide Events, ObjectEvents, IsClean, Covers, RefsAreDistinct, Permuted, KnownFirst;
    DistinctRefsHaveDistinctIds(input);
    if CoveredByKnown(input, ctx) {
      KnownFirstIsAccepted(input, ctx);
      KnownFirstIsPermuted(input, ctx);
    }
    if b :| Permuted(input, b) && IsClean(Events(b, ctx), ctx) {
      CleanIsCovered(b, ctx);
      PermutedAlike(input, b, ctx);
      forall u | IsUnknown(Events(input, ctx), u, ctx) ensures Covers(Events(input, ctx), u, ctx) {
        assert IsUnknown(Events(b, ctx), u, ctx);
        CoversMore(Events(b, ctx), Events(input, ctx), u, ctx);
      }
    }
  }

  // The condition on the lists themselves.

  /** The diagnostic is about the placement of an object whose placement is unknown. */
  predicate IsSettledByPlacement(d: Diagnostic, labels: Labels)
    requires d.objectId in labels
  {
    && labels[d.objectId].placementState == Some("unknown")
    && DiagnosticReason(d, labels[d.objectId].kind) == PlacementRelationshipInvalid
  }

  /** Every code an object or a coverage row gives is known, and every diagnostic with an unknown code is
      settled by the placement of its object. */
  ghost predicate CodesNeverReject(input: Input, ctx: Context) {
    var labels := LabelsOf(input.objects);
    && (forall o | o in input.objects :: AllKnown(ObjectSignals(o, ctx), ctx))
    && (forall row | row in input.coverage && IsCounted(row.objectId, labels) && CoverageReason(row.state).Some? ::
          row.state in ctx.codes)
    && (forall d | d in input.diagnostics && IsCounted(d.objectId, labels) && d.code !in ctx.codes :: IsSettledByPlacement(d, labels))
  }

  lemma NotUnknown(events: seq<Event>, u: Item, ctx: Context)
    requires AllKnown(events, ctx)
    ensures !IsUnknown(events, u, ctx)
  {
  }

  lemma CountedObject(input: Input, id: string) returns (o: Object)
    requires IsCounted(id, LabelsOf(input.objects))
    ensures o == LabelsOf(input.objects)[id] && o in input.objects && o.recordState == "valid" && IsLive(o)
  {
    hide IsLive, LabelsOf;
    LabelsFind(input.objects);
    o := LabelsOf(input.objects)[id];
  }

  lemma PlacementIsRaised(o: Object, ctx: Context)
    requires o.recordState == "valid" && IsLive(o) && o.placementState == Some("unknown")
    ensures Raised(Item(PlacementMissing, ObjectTarget(o), None, None)) in ObjectSignals(o, ctx)
  {
    hide IsLive, LifecycleSignals, MonitoringSignals, ReleaseSignals, ProvenanceSignals, RunbookSignals, KnowledgeSignals, AccessSignals;
    assert Raise(o, PlacementMissing, None, None) in PlacementSignals(o);
    assert Raise(o, PlacementMissing, None, None) in ValidRecordSignals(o, ctx);
  }

  lemma DiagnosticItem(d: Diagnostic, labels: Labels) returns (u: Item)
    requires IsCounted(d.objectId, labels)
    ensures Raised(u) in DiagnosticSignals(d, labels) && u.code == Some(d.code) && u.target == ObjectTarget(labels[d.objectId])
    ensures u.reason == DiagnosticReason(d, labels[d.objectId].kind)
  {
    hide IsLive;
    u := Raise(labels[d.objectId], DiagnosticReason(d, labels[d.objectId].kind), Some(d.code), None).item;
  }

  /** The objects cover a diagnostic exactly when its own object's unknown placement does. */
  lemma PlacementCovers(input: Input, ctx: Context, d: Diagnostic, u: Item)
    requires RefsAreDistinct(input.objects) && Raised(u) in DiagnosticSignals(d, LabelsOf(input.objects))
    ensures IsCounted(d.objectId, LabelsOf(input.objects))
    ensures Covers(ObjectEvents(input, ctx), u, ctx) <==> IsSettledByPlacement(d, LabelsOf(input.objects))
  {
    hide ObjectEvents, ObjectSignals, DiagnosticSignals, LabelsOf, IsLive, DiagnosticReason;
    var labels := LabelsOf(input.objects);
    DiagnosticShape(d, labels, u);
    var o := CountedObject(input, d.objectId);
    if IsSettledByPlacement(d, labels) {
      PlacementIsRaised(o, ctx);
      ObjectOfEvent(input, ctx, o, Raised(Item(PlacementMissing, ObjectTarget(o), None, None)));
    }
    if v :| Raised(v) in ObjectEvents(input, ctx) && CodeIsKnown(v, ctx) && Beats(v, u) {
      CoveringIsPlacement(input, ctx, o, d, u, v);
    }
  }

  lemma CoveringIsPlacement(input: Input, ctx: Context, o: Object, d: Diagnostic, u: Item, v: Item)
    requires RefsAreDistinct(input.objects) && o in input.objects && Raised(v) in ObjectEvents(input, ctx) && SlotOf(v) == SlotOf(u)
    requires u.target == ObjectTarget(o) && u.Category() in {Placement, RelationshipIntegrity} && u.reason == DiagnosticReason(d, o.kind)
    ensures o.placementState == Some("unknown") && DiagnosticReason(d, o.kind) == PlacementRelationshipInvalid
  {
    hide ObjectEvents, ObjectSignals, IsLive, SpecOf;
    var x := ObjectOf(input, ctx, v);
    QuietUnlessLive(x, ctx, v);
    RefNamesObject(input.objects, x, o);
    ObjectRaisesOnce(x, ctx);
    PlacementIsKnown(x, ctx, v);
    PlacementReason(d, o.kind);
  }

  lemma PlacementReason(d: Diagnostic, kind: string)
    ensures SpecOf(DiagnosticReason(d, kind)).category == Placement <==> DiagnosticReason(d, kind) == PlacementRelationshipInvalid
  {
  }

  lemma RowItem(row: CoverageRow, labels: Labels) returns (u: Item)
    requires IsCounted(row.objectId, labels) && CoverageReason(row.state).Some?
    ensures Raised(u) in CoverageSignals(row, labels) && u.code == Some(row.state)
  {
    hide IsLive;
    u := Item(CoverageReason(row.state).value, ObjectTarget(labels[row.objectId]), Some(row.state), Some(row.observedAt));
  }

  lemma DiagnosticEvent(input: Input, ctx: Context, d: Diagnostic, u: Item)
    requires d in input.diagnostics && Raised(u) in DiagnosticSignals(d, LabelsOf(input.objects))
    ensures Raised(u) in Events(input, ctx)
  {
    hide FlatMap, LabelsOf, DiagnosticSignals, Events;
    FlatMapMember(DiagnosticTrace(LabelsOf(input.objects)), input.diagnostics, Raised(u));
    InEvents(input, ctx, Raised(u));
  }

  lemma RowEvent(input: Input, ctx: Context, row: CoverageRow, u: Item)
    requires row in input.coverage && Raised(u) in CoverageSignals(row, LabelsOf(input.objects))
    ensures Raised(u) in Events(input, ctx)
  {
    hide FlatMap, LabelsOf, CoverageSignals, Events;
    FlatMapMember(CoverageTrace(LabelsOf(input.objects)), input.coverage, Raised(u));
    InEvents(input, ctx, Raised(u));
  }

  lemma KnownIsSettled(input: Input, ctx: Context)
    requires RefsAreDistinct(input.objects) && CodesNeverReject(input, ctx)
    ensures CoveredByObjects(input, ctx)
  {
    hide ObjectEvents, ObjectSignals, DiagnosticSignals, CoverageSignals, CatalogSignals, Events, LabelsOf, TaskEvents, RefsAreDistinct,
         SpecOf, Covers, IsCounted, CoverageReason, DiagnosticReason;
    forall u | IsUnknown(Events(input, ctx), u, ctx) ensures Covers(ObjectEvents(input, ctx), u, ctx) {
      SourceOf(input, ctx, u);
      if o :| o in input.objects && Raised(u) in ObjectSignals(o, ctx) {
        NotUnknown(ObjectSignals(o, ctx), u, ctx);
      } else if d :| d in input.diagnostics && Raised(u) in DiagnosticSignals(d, LabelsOf(input.objects)) {
        DiagnosticShape(d, LabelsOf(input.objects), u);
        PlacementCovers(input, ctx, d, u);
      } else if row :| row in input.coverage && Raised(u) in CoverageSignals(row, LabelsOf(input.objects)) {
        CoverageShape(row, LabelsOf(input.objects), u);
      } else if Raised(u) in TaskEvents(input, ctx) {
        TaskEventShape(input, ctx, u);
      } else {
        CatalogShape(input.collected, u);
      }
    }
  }

  lemma SettledIsKnown(input: Input, ctx: Context)
    requires RefsAreDistinct(input.objects) && CoveredByObjects(input, ctx)
    ensures CodesNeverReject(input, ctx)
  {
    hide ObjectEvents, ObjectSignals, DiagnosticSignals, CoverageSignals, Events, LabelsOf, RefsAreDistinct, SpecOf, Covers, IsCounted,
         CoverageReason, DiagnosticReason, IsSettledByPlacement;
    var labels := LabelsOf(input.objects);
    CoveredByAll(input, ctx);
    ObjectsAreKnown(input, ctx);
    forall o, u | o in input.objects ensures !IsUnknown(ObjectSignals(o, ctx), u, ctx) {
      if IsUnknown(ObjectSignals(o, ctx), u, ctx) {
        ObjectOfEvent(input, ctx, o, Raised(u));
        NotUnknown(ObjectEvents(input, ctx), u, ctx);
      }
    }
    forall d | d in input.diagnostics && IsCounted(d.objectId, labels) && d.code !in ctx.codes
      ensures d.objectId in labels && IsSettledByPlacement(d, labels)
    {
      var u := DiagnosticItem(d, labels);
      DiagnosticEvent(input, ctx, d, u);
      assert IsUnknown(Events(input, ctx), u, ctx);
      PlacementCovers(input, ctx, d, u);
      CountedIsListed(d.objectId, labels);
    }
    forall row | row in input.coverage && IsCounted(row.objectId, labels) && CoverageReason(row.state).Some?
      ensures row.state in ctx.codes
    {
      var u := RowItem(row, labels);
      RowEvent(input, ctx, row, u);
      CoverageShape(row, labels, u);
      ObjectsLeaveCoverage(input, ctx, u);
      assert !IsUnknown(Events(input, ctx), u, ctx);
    }
  }

  lemma CountedIsListed(id: string, labels: Labels)
    requires IsCounted(id, labels)
    ensures id in labels
  {
  }

  /** An input is accepted in every order of its lists exactly when every code its objects and coverage
      rows give is known, and every diagnostic with an unknown code is about the placement of an object
      whose placement is unknown. */
  lemma AcceptedInEveryOrderIff(input: Input, ctx: Context)
    requires RefsAreDistinct(input.objects)
    ensures AcceptedInEveryOrder(input, ctx) <==> CodesNeverReject(input, ctx)
  {
    hide AcceptedInEveryOrder, CoveredByObjects, CodesNeverReject, RefsAreDistinct;
    EveryOrderIff(input, ctx);
    if CoveredByObjects(input, ctx) {
      SettledIsKnown(input, ctx);
    }
    if CodesNeverReject(input, ctx) {
      KnownIsSettled(input, ctx);
    }
  }

  // The same for some order.

  /** The other diagnostic is about the same object, has a known code, and its reason is of the same
      category and of the same or a lesser rank. */
  predicate SettlesDiagnostic(other: Diagnostic, d: Diagnostic, labels: Labels, ctx: Context)
    requires d.objectId in labels
  {
    var kind := labels[d.objectId].kind;
    && other.objectId == d.objectId && other.code in ctx.codes
    && SpecOf(DiagnosticReason(other, kind)).category == SpecOf(DiagnosticReason(d, kind)).category
    && Rank(DiagnosticReason(other, kind)) <= Rank(DiagnosticReason(d, kind))
  }

  /** The other row is about the same object, has a known state, and its reason has the same or a lesser
      rank. */
  predicate SettlesRow(other: CoverageRow, row: CoverageRow, ctx: Context)
    requires CoverageReason(row.state).Some?
  {
    && other.objectId == row.objectId && other.state in ctx.codes && CoverageReason(other.state).Some?
    && Rank(CoverageReason(other.state).value) <= Rank(CoverageReason(row.state).value)
  }

  /** Every code an object gives is known, every coverage row with an unknown state is settled by another
      row, and every diagnostic with an unknown code by the placement of its object or another diagnostic. */
  ghost predicate CodesCanBeOrdered(input: Input, ctx: Context) {
    var labels := LabelsOf(input.objects);
    && (forall o | o in input.objects :: AllKnown(ObjectSignals(o, ctx), ctx))
    && (forall row | row in input.coverage && IsCounted(row.objectId, labels) && CoverageReason(row.state).Some? && row.state !in ctx.codes ::
          exists other :: other in input.coverage && SettlesRow(other, row, ctx))
    && (forall d | d in input.diagnostics && IsCounted(d.objectId, labels) && d.code !in ctx.codes ::
          IsSettledByPlacement(d, labels) || exists other :: other in input.diagnostics && SettlesDiagnostic(other, d, labels, ctx))
  }

  lemma LabelIsListed(input: Input, id: string)
    requires id in LabelsOf(input.objects)
    ensures LabelsOf(input.objects)[id] in input.objects && LabelsOf(input.objects)[id].objectId == id
  {
    hide LabelsOf;
    LabelsFind(input.objects);
  }

  /** Counted ids with one target reference are one. */
  lemma SameTargetSameId(input: Input, x: string, y: string)
    requires RefsAreDistinct(input.objects) && x in LabelsOf(input.objects) && y in LabelsOf(input.objects)
    requires ObjectTarget(LabelsOf(input.objects)[x]).ref == ObjectTarget(LabelsOf(input.objects)[y]).ref
    ensures x == y
  {
    hide LabelsOf, RefsAreDistinct;
    LabelIsListed(input, x);
    LabelIsListed(input, y);
    RefNamesObject(input.objects, LabelsOf(input.objects)[x], LabelsOf(input.objects)[y]);
  }

  lemma DiagnosticSettled(input: Input, ctx: Context, d: Diagnostic, other: Diagnostic, u: Item)
    requires Raised(u) in DiagnosticSignals(d, LabelsOf(input.objects)) && other in input.diagnostics && d.objectId in LabelsOf(input.objects)
    requires SettlesDiagnostic(other, d, LabelsOf(input.objects), ctx)
    ensures Covers(Events(input, ctx), u, ctx)
  {
    hide Events, LabelsOf, DiagnosticSignals, IsCounted, DiagnosticReason, SpecOf;
    var labels := LabelsOf(input.objects);
    DiagnosticShape(d, labels, u);
    var v := DiagnosticItem(other, labels);
    DiagnosticEvent(input, ctx, other, v);
  }

  lemma RowShape(row: CoverageRow, labels: Labels, u: Item)
    requires Raised(u) in CoverageSignals(row, labels)
    ensures row.objectId in labels && u.target == ObjectTarget(labels[row.objectId])
    ensures CoverageReason(row.state) == Some(u.reason) && u.Category() == SourceCoverage
  {
    hide IsLive;
  }

  lemma RowSettled(input: Input, ctx: Context, row: CoverageRow, other: CoverageRow, u: Item)
    requires Raised(u) in CoverageSignals(row, LabelsOf(input.objects)) && other in input.coverage && CoverageReason(row.state).Some?
    requires SettlesRow(other, row, ctx)
    ensures Covers(Events(input, ctx), u, ctx)
  {
    hide Events, LabelsOf, CoverageSignals, IsCounted, CoverageReason, SpecOf;
    var labels := LabelsOf(input.objects);
    CoverageShape(row, labels, u);
    RowShape(row, labels, u);
    var v := RowItem(other, labels);
    RowShape(other, labels, v);
    RowEvent(input, ctx, other, v);
  }

  /** What covers a diagnostic's item from elsewhere than an object is another diagnostic. */
  lemma CoveringDiagnostic(input: Input, ctx: Context, d: Diagnostic, u: Item, v: Item) returns (other: Diagnostic)
    requires RefsAreDistinct(input.objects) && Raised(u) in DiagnosticSignals(d, LabelsOf(input.objects)) && d.objectId in LabelsOf(input.objects)
    requires Raised(v) in Events(input, ctx) && CodeIsKnown(v, ctx) && Beats(v, u) && Raised(v) !in ObjectEvents(input, ctx)
    ensures other in input.diagnostics && SettlesDiagnostic(other, d, LabelsOf(input.objects), ctx)
  {
    hide Events, ObjectEvents, TaskEvents, DiagnosticEvents, CoverageEvents, CatalogSignals, LabelsOf, DiagnosticSignals, IsLive,
         DiagnosticReason, RefsAreDistinct, SpecOf;
    var labels := LabelsOf(input.objects);
    EventsAreSections(input, ctx);
    DiagnosticShape(d, labels, u);
    if Raised(v) in DiagnosticEvents(input) {
      other := DiagnosticSource(input, v);
      DiagnosticShape(other, labels, v);
      CountedIsListed(other.objectId, labels);
      SameTargetSameId(input, other.objectId, d.objectId);
    } else if Raised(v) in TaskEvents(input, ctx) {
      TaskEventShape(input, ctx, v);
      assert false;
    } else if Raised(v) in CoverageEvents(input) {
      var row := CoverageSource(input, v);
      assert false;
    } else {
      CatalogShape(input.collected, v);
      assert false;
    }
  }

  lemma CoveringRow(input: Input, ctx: Context, row: CoverageRow, u: Item, v: Item) returns (other: CoverageRow)
    requires RefsAreDistinct(input.objects) && Raised(u) in CoverageSignals(row, LabelsOf(input.objects)) && CoverageReason(row.state).Some?
    requires Raised(v) in Events(input, ctx) && CodeIsKnown(v, ctx) && Beats(v, u)
    ensures other in input.coverage && SettlesRow(other, row, ctx)
  {
    hide Events, ObjectEvents, TaskEvents, DiagnosticEvents, CoverageEvents, CatalogSignals, LabelsOf, CoverageSignals, IsLive,
         CoverageReason, RefsAreDistinct, ObjectSignals, SpecOf;
    var labels := LabelsOf(input.objects);
    EventsAreSections(input, ctx);
    CoverageShape(row, labels, u);
    RowShape(row, labels, u);
    if Raised(v) in CoverageEvents(input) {
      other := CoverageSource(input, v);
      RowShape(other, labels, v);
      SameTargetSameId(input, other.objectId, row.objectId);
    } else if Raised(v) in ObjectEvents(input, ctx) {
      var o := ObjectOf(input, ctx, v);
      ObjectRaisesOnce(o, ctx);
      assert false;
    } else if Raised(v) in DiagnosticEvents(input) {
      var d := DiagnosticSource(input, v);
      assert false;
    } else if Raised(v) in TaskEvents(input, ctx) {
      TaskEventShape(input, ctx, v);
      assert false;
    } else {
      CatalogShape(input.collected, v);
      assert false;
    }
  }

  lemma OrderedIsCovered(input: Input, ctx: Context)
    requires RefsAreDistinct(input.objects) && CodesCanBeOrdered(input, ctx)
    ensures CoveredByKnown(input, ctx)
  {
    hide ObjectEvents, ObjectSignals, DiagnosticSignals, CoverageSignals, CatalogSignals, Events, LabelsOf, TaskEvents, RefsAreDistinct,
         SpecOf, Covers, IsCounted, CoverageReason, DiagnosticReason, SettlesDiagnostic, SettlesRow, IsSettledByPlacement;
    var labels := LabelsOf(input.objects);
    forall u | IsUnknown(Events(input, ctx), u, ctx) ensures Covers(Events(input, ctx), u, ctx) {
      SourceOf(input, ctx, u);
      if o :| o in input.objects && Raised(u) in ObjectSignals(o, ctx) {
        NotUnknown(ObjectSignals(o, ctx), u, ctx);
      } else if d :| d in input.diagnostics && Raised(u) in DiagnosticSignals(d, labels) {
        DiagnosticShape(d, labels, u);
        CountedIsListed(d.objectId, labels);
        if IsSettledByPlacement(d, labels) {
          PlacementCovers(input, ctx, d, u);
          forall e | e in ObjectEvents(input, ctx) ensures e in Events(input, ctx) {
            InEvents(input, ctx, e);
          }
          CoversMore(ObjectEvents(input, ctx), Events(input, ctx), u, ctx);
        } else {
          var other :| other in input.diagnostics && SettlesDiagnostic(other, d, labels, ctx);
          DiagnosticSettled(input, ctx, d, other, u);
        }
      } else if row :| row in input.coverage && Raised(u) in CoverageSignals(row, labels) {
        CoverageShape(row, labels, u);
        var other :| other in input.coverage && SettlesRow(other, row, ctx);
        RowSettled(input, ctx, row, other, u);
      } else if Raised(u) in TaskEvents(input, ctx) {
        TaskEventShape(input, ctx, u);
      } else {
        CatalogShape(input.collected, u);
      }
    }
  }

  lemma CoveredDiagnostic(input: Input, ctx: Context, d: Diagnostic)
    requires RefsAreDistinct(input.objects) && CoveredByKnown(input, ctx) && d in input.diagnostics
    requires IsCounted(d.objectId, LabelsOf(input.objects)) && d.code !in ctx.codes
    ensures d.objectId in LabelsOf(input.objects)
    ensures IsSettledByPlacement(d, LabelsOf(input.objects))
            || exists other :: other in input.diagnostics && SettlesDiagnostic(other, d, LabelsOf(input.objects), ctx)
  {
    hide ObjectEvents, DiagnosticSignals, Events, LabelsOf, RefsAreDistinct, SpecOf, IsCounted, DiagnosticReason, SettlesDiagnostic,
         IsSettledByPlacement, Beats;
    var labels := LabelsOf(input.objects);
    CountedIsListed(d.objectId, labels);
    var u := DiagnosticItem(d, labels);
    DiagnosticEvent(input, ctx, d, u);
    assert IsUnknown(Events(input, ctx), u, ctx);
    assert Covers(Events(input, ctx), u, ctx);
    var v :| Raised(v) in Events(input, ctx) && CodeIsKnown(v, ctx) && Beats(v, u);
    PlacementCovers(input, ctx, d, u);
    if Raised(v) !in ObjectEvents(input, ctx) {
      var other := CoveringDiagnostic(input, ctx, d, u, v);
    }
  }

  lemma CoveredRow(input: Input, ctx: Context, row: CoverageRow)
    requires RefsAreDistinct(input.objects) && CoveredByKnown(input, ctx) && row in input.coverage
    requires IsCounted(row.objectId, LabelsOf(input.objects)) && CoverageReason(row.state).Some? && row.state !in ctx.codes
    ensures exists other :: other in input.coverage && SettlesRow(other, row, ctx)
  {
    hide CoverageSignals, Events, LabelsOf, RefsAreDistinct, SpecOf, IsCounted, CoverageReason, SettlesRow, Beats;
    var labels := LabelsOf(input.objects);
    var u := RowItem(row, labels);
    RowEvent(input, ctx, row, u);
    assert IsUnknown(Events(input, ctx), u, ctx);
    assert Covers(Events(input, ctx), u, ctx);
    var v :| Raised(v) in Events(input, ctx) && CodeIsKnown(v, ctx) && Beats(v, u);
    var other := CoveringRow(input, ctx, row, u, v);
  }

  lemma CoveredIsOrdered(input: Input, ctx: Context)
    requires RefsAreDistinct(input.objects) && CoveredByKnown(input, ctx)
    ensures CodesCanBeOrdered(input, ctx)
  {
    hide ObjectEvents, ObjectSignals, LabelsOf, RefsAreDistinct, CoveredByKnown, IsCounted, CoverageReason, SettlesDiagnostic, SettlesRow,
         IsSettledByPlacement;
    var labels := LabelsOf(input.objects);
    ObjectsAreKnown(input, ctx);
    forall o, u | o in input.objects ensures !IsUnknown(ObjectSignals(o, ctx), u, ctx) {
      if IsUnknown(ObjectSignals(o, ctx), u, ctx) {
        ObjectOfEvent(input, ctx, o, Raised(u));
        NotUnknown(ObjectEvents(input, ctx), u, ctx);
      }
    }
    forall d | d in input.diagnostics && IsCounted(d.objectId, labels) && d.code !in ctx.codes
      ensures d.objectId in labels
      ensures IsSettledByPlacement(d, labels) || exists other :: other in input.diagnostics && SettlesDiagnostic(other, d, labels, ctx)
    {
      CoveredDiagnostic(input, ctx, d);
    }
    forall row | row in input.coverage && IsCounted(row.objectId, labels) && CoverageReason(row.state).Some? && row.state !in ctx.codes
      ensures exists other :: other in input.coverage && SettlesRow(other, row, ctx)
    {
      CoveredRow(input, ctx, row);
    }
  }

  /** An input is accepted in some order of its lists, and so not rejected in all of them, exactly when
      every code its objects give is known and each row and diagnostic with an unknown code is settled. */
  lemma AcceptedInSomeOrderIff(input: Input, ctx: Context)
    requires RefsAreDistinct(input.objects)
    ensures (exists b :: Permuted(input, b) && IsClean(Events(b, ctx), ctx)) <==> CodesCanBeOrdered(input, ctx)
  {
    hide Permuted, IsClean, Events, CoveredByKnown, CodesCanBeOrdered, RefsAreDistinct;
    SomeOrderIff(input, ctx);
    if CoveredByKnown(input, ctx) {
      CoveredIsOrdered(input, ctx);
    }
    if CodesCanBeOrdered(input, ctx) {
      OrderedIsCovered(input, ctx);
    }
  }
}
