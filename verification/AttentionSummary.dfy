/** The summary of a listed item set, and two inputs that show the limits of the derivation. */
module AttentionSummary {
  import opened Wrappers
  import opened Counts
  import opened Ordering
  import opened AttentionSignals
  import opened Attention
  import opened AttentionRun
  import opened AttentionOrder

  datatype Status = Status(state: SignalState, evaluated: nat, items: nat)

  datatype Summary = Summary(total: nat, bySeverity: map<Severity, nat>, byCategory: map<Category, nat>, byReason: map<Reason, nat>,
                             signals: map<Category, Status>, snapshotCollected: bool)

  function SeverityOf(): Item -> Severity {
    (item: Item) => item.Severity()
  }

  function CategoryOf(): Item -> Category {
    (item: Item) => item.Category()
  }

  function ReasonOf(): Item -> Reason {
    (item: Item) => item.reason
  }

  function StatesOf(items: seq<Item>, c: Category): set<SignalState> {
    if items == [] then {}
    else
      var last := items[|items| - 1];
      StatesOf(items[..|items| - 1], c) + if last.Category() == c then {last.State()} else {}
  }

  function CategoryState(c: Category, evaluated: nat, states: set<SignalState>, collected: bool): SignalState {
    if c == SourceCoverage && !collected then Unknown
    else if evaluated == 0 then NotApplicable
    else if Stale in states then Stale
    else if Unknown in states then Unknown
    else Current
  }

  lemma RanksAreComplete()
    ensures Distinct(SEVERITIES) && forall s :: s in SEVERITIES
    ensures Distinct(CATEGORIES) && forall c :: c in CATEGORIES
  {
    forall s ensures s in SEVERITIES {
      SeverityRankIsPosition(s);
    }
    forall c ensures c in CATEGORIES {
      CategoryRankIsPosition(c);
    }
  }

  lemma ReasonsAreListed()
    ensures forall r :: r in REASONS
  {
    hide SpecOf;
    forall r ensures r in REASONS {
      RankIsPosition(r);
    }
  }

  lemma ReasonsAreDistinct()
    ensures Distinct(REASONS)
  {
  }

  /** `summarize_attention`: each family of counts is that of the items and adds up to their number. */
  method Summarize(items: seq<Item>, evaluated: Evaluated, collected: bool) returns (s: Summary)
    requires forall c :: c in evaluated
    ensures s.total == |items| && s.snapshotCollected == collected
    ensures Tallies(s.bySeverity, SeverityOf(), items) && Sum(SEVERITIES, s.bySeverity) == s.total
    ensures Tallies(s.byCategory, CategoryOf(), items) && Sum(CATEGORIES, s.byCategory) == s.total
    ensures Tallies(s.byReason, ReasonOf(), items) && Sum(REASONS, s.byReason) == s.total
    ensures forall c :: c in s.signals && s.signals[c] ==
              Status(CategoryState(c, evaluated[c], StatesOf(items, c), collected), evaluated[c], Tally(CategoryOf(), items, c))
  {
    hide SpecOf, Sum;
    RanksAreComplete();
    ReasonsAreListed();
    ReasonsAreDistinct();
    var bySeverity, byCategory, byReason := Zeros(SEVERITIES), Zeros(CATEGORIES), Zeros(REASONS);
    var states: map<Category, set<SignalState>> := map c | c in CATEGORIES :: {};
    for i := 0 to |items|
      invariant Tallies(bySeverity, SeverityOf(), items[..i])
      invariant Tallies(byCategory, CategoryOf(), items[..i])
      invariant Tallies(byReason, ReasonOf(), items[..i])
      invariant forall c :: c in states && states[c] == StatesOf(items[..i], c)
    {
      var item := items[i];
      CountNext(bySeverity, SeverityOf(), items, i);
      CountNext(byCategory, CategoryOf(), items, i);
      CountNext(byReason, ReasonOf(), items, i);
      assert items[..i + 1][..i] == items[..i] && items[..i + 1][i] == item;
      bySeverity := bySeverity[item.Severity() := bySeverity[item.Severity()] + 1];
      byCategory := byCategory[item.Category() := byCategory[item.Category()] + 1];
      byReason := byReason[item.reason := byReason[item.reason] + 1];
      states := states[item.Category() := states[item.Category()] + {item.State()}];
    }
    assert items[..|items|] == items;
    TalliesSum(SEVERITIES, SeverityOf(), items, bySeverity);
    TalliesSum(CATEGORIES, CategoryOf(), items, byCategory);
    TalliesSum(REASONS, ReasonOf(), items, byReason);
    var signals := map c | c in CATEGORIES ::
      Status(CategoryState(c, evaluated[c], states[c], collected), evaluated[c], byCategory[c]);
    s := Summary(|items|, bySeverity, byCategory, byReason, signals, collected);
  }

  // When a category is listed and still reported as not applicable.

  /** Some valid and live object has a placement state. */
  predicate PlacementIsJudged(input: Input) {
    exists o :: o in input.objects && o.recordState == "valid" && IsLive(o) && o.placementState.Some?
  }

  /** The diagnostic is published as an invalid placement edge. */
  predicate IsPlacementFault(d: Diagnostic) {
    d.code != "dangling_typed_reference" && (d.relationType == Some("hosts") || d.code == "multiple_placement_parents")
  }

  predicate PlacementIsFaulted(input: Input) {
    exists d :: d in input.diagnostics && IsCounted(d.objectId, LabelsOf(input.objects)) && IsPlacementFault(d)
  }

  lemma FaultIsReason(d: Diagnostic, kind: string)
    ensures IsPlacementFault(d) <==> DiagnosticReason(d, kind) == PlacementRelationshipInvalid
  {
  }

  lemma RecordsJudgeElse(o: Object)
    ensures Judged(Placement) !in AccessSignals(o) && Judged(Placement) !in LifecycleSignals(o) && Judged(Placement) !in ReleaseSignals(o)
  {
    hide SpecOf, HealthReason;
  }

  lemma ReviewsJudgeElse(o: Object, ctx: Context)
    ensures Judged(Placement) !in ProvenanceSignals(o, ctx) && Judged(Placement) !in KnowledgeSignals(o, ctx)
    ensures Judged(Placement) !in RunbookSignals(o, ctx)
  {
    hide IsPast, Code, DataText, Trimmed, SpecOf;
  }

  lemma MonitoringJudgesElse(o: Object, ctx: Context)
    ensures Judged(Placement) !in MonitoringSignals(o, ctx)
  {
    hide ObservationSignals, SpecOf;
    if o.monitoring.Some? {
      ObservationsOnlyRaise(o, o.monitoring.value, ctx);
    }
  }

  lemma ObjectJudgesPlacement(o: Object, ctx: Context)
    ensures Judged(Placement) in ObjectSignals(o, ctx) <==> o.recordState == "valid" && IsLive(o) && o.placementState.Some?
  {
    hide IsLive, AccessSignals, LifecycleSignals, MonitoringSignals, ReleaseSignals, ProvenanceSignals, RunbookSignals,
         KnowledgeSignals, SpecOf;
    RecordsJudgeElse(o);
    ReviewsJudgeElse(o, ctx);
    MonitoringJudgesElse(o, ctx);
  }

  lemma ObservationsOnlyRaise(o: Object, m: MonitoringView, ctx: Context)
    ensures forall e | e in ObservationSignals(o, m, ctx) :: e.Raised?
  {
    hide Code;
  }

  lemma OthersJudgeElse(input: Input, ctx: Context)
    ensures Judged(Placement) !in TaskEvents(input, ctx) && Judged(Placement) !in DiagnosticEvents(input)
    ensures Judged(Placement) !in CoverageEvents(input) && Judged(Placement) !in CatalogSignals(input.collected)
  {
    hide FlatMap, LabelsOf, SpecOf, IsCounted, DiagnosticReason, CoverageReason, TaskCounts, IsOverdue;
    var labels, judged := LabelsOf(input.objects), Judged(Placement);
    FlatMapMember(TaskTrace(labels, ctx), input.tasks, judged);
    FlatMapMember(DiagnosticTrace(labels), input.diagnostics, judged);
    FlatMapMember(CoverageTrace(labels), input.coverage, judged);
  }

  lemma PlacementJudgements(input: Input, ctx: Context)
    ensures Judgements(Events(input, ctx), Placement) > 0 <==> PlacementIsJudged(input)
  {
    hide FlatMap, ObjectSignals, TaskEvents, DiagnosticEvents, CoverageEvents, CatalogSignals, Events, IsLive, Judgements;
    var judged := Judged(Placement);
    JudgementsAreCounted(Events(input, ctx), Placement);
    EventsAreSections(input, ctx);
    OthersJudgeElse(input, ctx);
    FlatMapMember(ObjectTrace(ctx), input.objects, judged);
    forall o ensures judged in ObjectSignals(o, ctx) <==> o.recordState == "valid" && IsLive(o) && o.placementState.Some? {
      ObjectJudgesPlacement(o, ctx);
    }
    assert judged in Events(input, ctx) <==> judged in ObjectEvents(input, ctx);
  }

  /** A catalog item is only raised when coverage was not collected. */
  lemma NotCollected(input: Input, ctx: Context, item: Item)
    requires Raised(item) in Events(input, ctx) && item.reason == CoverageNotCollected
    ensures !input.collected
  {
    hide ObjectSignals, TaskEvents, DiagnosticSignals, CoverageSignals, Events, LabelsOf, IsLive, IsCounted, ObjectTarget, CoverageReason,
         DiagnosticReason;
    SourceOf(input, ctx, item);
    if o :| o in input.objects && Raised(item) in ObjectSignals(o, ctx) {
      ObjectRaisesOnce(o, ctx);
    } else if Raised(item) in TaskEvents(input, ctx) {
      TaskEventShape(input, ctx, item);
    } else if d :| d in input.diagnostics && Raised(item) in DiagnosticSignals(d, LabelsOf(input.objects)) {
      DiagnosticShape(d, LabelsOf(input.objects), item);
    } else if row :| row in input.coverage && Raised(item) in CoverageSignals(row, LabelsOf(input.objects)) {
      CoverageShape(row, LabelsOf(input.objects), item);
    }
  }

  lemma FaultIsRaised(input: Input, ctx: Context)
    ensures PlacementIsFaulted(input) <==> exists item :: Raised(item) in Events(input, ctx) && item.reason == PlacementRelationshipInvalid
  {
    hide ObjectSignals, TaskEvents, DiagnosticSignals, CoverageSignals, CatalogSignals, Events, LabelsOf, IsLive, IsCounted, DiagnosticReason,
         IsPlacementFault, CoverageReason;
    var labels := LabelsOf(input.objects);
    if d :| d in input.diagnostics && IsCounted(d.objectId, labels) && IsPlacementFault(d) {
      CountedIsListed(d.objectId, labels);
      var u := DiagnosticItem(d, labels);
      FaultIsReason(d, labels[d.objectId].kind);
      DiagnosticEvent(input, ctx, d, u);
    }
    if item :| Raised(item) in Events(input, ctx) && item.reason == PlacementRelationshipInvalid {
      SourceOf(input, ctx, item);
      if o :| o in input.objects && Raised(item) in ObjectSignals(o, ctx) {
        PlacementIsKnown(o, ctx, item);
      } else if Raised(item) in TaskEvents(input, ctx) {
        TaskEventShape(input, ctx, item);
      } else if d :| d in input.diagnostics && Raised(item) in DiagnosticSignals(d, labels) {
        DiagnosticShape(d, labels, item);
        CountedIsListed(d.objectId, labels);
        FaultIsReason(d, labels[d.objectId].kind);
      } else if row :| row in input.coverage && Raised(item) in CoverageSignals(row, labels) {
        CoverageShape(row, labels, item);
      } else {
        CatalogShape(input.collected, item);
      }
    }
  }

  lemma ListedIsRaised(events: seq<Event>, items: seq<Item>, item: Item)
    requires IsListing(items, Collect(events)) && item in items
    ensures Raised(item) in events
  {
    hide Collect, SpecOf, KeyLe;
    CollectKeepsLeast(events);
  }

  lemma RaisedIsListed(events: seq<Event>, items: seq<Item>, item: Item)
    requires IsListing(items, Collect(events)) && Raised(item) in events
    ensures Tally(CategoryOf(), items, item.Category()) > 0
  {
    hide Collect, SpecOf, KeyLe, Tally;
    CollectKeepsLeast(events);
    assert Suppressed(Collect(events), item);
    var kept := Collect(events)[SlotOf(item)];
    assert SlotOf(kept) == SlotOf(item) && kept in items;
    TallyPositive(items, kept);
  }

  lemma {:induction false} TallyMember(items: seq<Item>, c: Category) returns (item: Item)
    requires Tally(CategoryOf(), items, c) > 0
    ensures item in items && item.Category() == c
  {
    hide SpecOf;
    var front, last := items[..|items| - 1], items[|items| - 1];
    assert items == front + [last];
    if last.Category() == c {
      item := last;
    } else {
      item := TallyMember(front, c);
    }
  }

  /** A listed category is reported as not applicable exactly when it is that of placement, and no input
      was judged for it. */
  lemma ListedStateIff(input: Input, ctx: Context, items: seq<Item>, c: Category)
    requires IsListing(items, Collect(Events(input, ctx))) && Tally(CategoryOf(), items, c) > 0
    ensures CategoryState(c, Judgements(Events(input, ctx), c), StatesOf(items, c), input.collected) == NotApplicable <==>
            c == Placement && Judgements(Events(input, ctx), Placement) == 0
  {
    hide Events, Collect, Judgements, KeyLe, StatesOf, Tally, IsListing;
    var item := TallyMember(items, c);
    ListedIsRaised(Events(input, ctx), items, item);
    if item.reason == CoverageNotCollected {
      NotCollected(input, ctx, item);
    } else if item.reason != PlacementRelationshipInvalid {
      RaisedWasJudged(input, ctx, item);
    }
  }

  /** Read off the inputs: a category lists an item and is reported as not applicable exactly when it is
      that of placement, no valid and live object has a placement state, and some counted diagnostic is
      an invalid placement edge. */
  lemma ListedButNotApplicableIff(input: Input, ctx: Context, items: seq<Item>, c: Category)
    requires IsListing(items, Collect(Events(input, ctx)))
    ensures (Tally(CategoryOf(), items, c) > 0
             && CategoryState(c, Judgements(Events(input, ctx), c), StatesOf(items, c), input.collected) == NotApplicable) <==>
            c == Placement && !PlacementIsJudged(input) && PlacementIsFaulted(input)
  {
    hide Events, Collect, Judgements, KeyLe, StatesOf, Tally, IsListing, PlacementIsJudged, PlacementIsFaulted;
    PlacementJudgements(input, ctx);
    FaultIsRaised(input, ctx);
    if Tally(CategoryOf(), items, c) > 0 {
      ListedStateIff(input, ctx, items, c);
      var item := TallyMember(items, c);
      ListedIsRaised(Events(input, ctx), items, item);
      if item.reason != PlacementRelationshipInvalid && item.reason != CoverageNotCollected {
        RaisedWasJudged(input, ctx, item);
      }
    }
    if item :| Raised(item) in Events(input, ctx) && item.reason == PlacementRelationshipInvalid {
      RaisedIsListed(Events(input, ctx), items, item);
    }
  }

  // Two limits, on concrete inputs.

  function Note(): Object {
    Object("a", "note", "A", None, None, "valid", None, None, Some("t"), None, map[], None, None, false, None, false)
  }

  function Diagnosed(diagnostics: seq<Diagnostic>): Input {
    Input([Note()], [], diagnostics, [], true)
  }

  function NoteJudgements(): seq<Event> {
    [Judged(RecordIntegrity), Judged(RelationshipIntegrity), Judged(Provenance)]
  }

  lemma NoteSignals(ctx: Context)
    ensures ObjectSignals(Note(), ctx) == NoteJudgements()
  {
    var o := Note();
    assert IsLive(o);
    assert AccessSignals(o) == [] && PlacementSignals(o) == [] && LifecycleSignals(o) == [] && ReleaseSignals(o) == [];
    assert MonitoringSignals(o, ctx) == [] && RunbookSignals(o, ctx) == [] && KnowledgeSignals(o, ctx) == [];
    assert ProvenanceSignals(o, ctx) == [Judged(Provenance)];
  }

  function Finding(d: Diagnostic): Event {
    Raise(Note(), DiagnosticReason(d, "note"), Some(d.code), None)
  }

  lemma DiagnosedEvents(first: Diagnostic, second: Diagnostic, ctx: Context)
    requires first.objectId == "a" && second.objectId == "a"
    ensures Events(Diagnosed([first, second]), ctx) == NoteJudgements() + [Finding(first), Finding(second)]
  {
    hide ObjectSignals, DiagnosticReason;
    NoteSignals(ctx);
    var labels := LabelsOf([Note()]);
    assert [Note()][..0] == [] && labels == map["a" := Note()];
    assert IsCounted("a", labels);
    var ds := [first, second];
    assert ds[..1] == [first] && ds[..1][..0] == [];
    assert DiagnosticSignals(first, labels) == [Finding(first)] && DiagnosticSignals(second, labels) == [Finding(second)];
    var f := DiagnosticTrace(labels);
    assert FlatMap(f, ds[..1]) == [Finding(first)];
    assert FlatMap(f, ds) == FlatMap(f, ds[..1]) + f(second) == [Finding(first), Finding(second)];
    assert FlatMap(ObjectTrace(ctx), [Note()]) == NoteJudgements();
  }

  lemma TwoFindingsClean(first: Diagnostic, second: Diagnostic, ctx: Context)
    requires first.objectId == "a" && second.objectId == "a"
    requires DiagnosticReason(first, "note") == DiagnosticReason(second, "note")
    ensures IsClean(Events(Diagnosed([first, second]), ctx), ctx) <==> first.code in ctx.codes
  {
    hide Events, DiagnosticReason, SpecOf, IsClean;
    DiagnosedEvents(first, second, ctx);
    var es := Events(Diagnosed([first, second]), ctx);
    CleanIff(es, ctx);
    assert es[3] == Finding(first) && es[4] == Finding(second);
    assert forall j | 0 <= j < 3 :: es[j].Judged?;
  }

  /** Whether an unknown code is noticed depends on the order of the diagnostics: it passes unseen
      behind an equal reason and rejects the derivation in front of it. */
  lemma OrderDecidesRejection()
    ensures exists a, b, ctx :: Permuted(a, b) && IdsAreDistinct(a.objects)
                                && IsClean(Events(a, ctx), ctx) && !IsClean(Events(b, ctx), ctx)
  {
    hide Events, IsClean;
    var ctx := Context(0, (text: string) => None, {"known"});
    var known, odd := Diagnostic("a", "known", None), Diagnostic("a", "odd", None);
    TwoFindingsClean(known, odd, ctx);
    TwoFindingsClean(odd, known, ctx);
    var a, b := Diagnosed([known, odd]), Diagnosed([odd, known]);
    assert multiset([known, odd]) == multiset([odd, known]);
    assert Permuted(a, b);
  }

  /** A category can list an item and be reported as not applicable: an invalid placement edge is
      listed for an object that is not judged for placement. */
  lemma ListedButNotApplicable(ctx: Context, items: seq<Item>)
    requires IsListing(items, Collect(Events(Misplaced(), ctx)))
    ensures Tally(CategoryOf(), items, Placement) > 0
    ensures CategoryState(Placement, Judgements(Events(Misplaced(), ctx), Placement), StatesOf(items, Placement), true)
            == NotApplicable
  {
    hide Events, Collect, Judgements, KeyLe, StatesOf, Tally;
    var es := MisplacedIsRaised(ctx);
    CollectKeepsLeast(es);
    var kept := Collect(es)[(Placement, "note:a")];
    assert kept in items;
    TallyPositive(items, kept);
  }

  function Misplaced(): Input {
    Diagnosed([Diagnostic("a", "c", Some("hosts")), Diagnostic("a", "c", Some("hosts"))])
  }

  lemma MisplacedIsRaised(ctx: Context) returns (es: seq<Event>)
    ensures es == Events(Misplaced(), ctx) && Judgements(es, Placement) == 0 && (Placement, "note:a") in Collect(es)
  {
    hide Events, Collect, Judgements;
    var d := Diagnostic("a", "c", Some("hosts"));
    es := Events(Misplaced(), ctx);
    DiagnosedEvents(d, d, ctx);
    JudgementsAreCounted(es, Placement);
    assert Judged(Placement) !in es && Judged(Placement) !in multiset(es);
    CollectKeepsLeast(es);
    var item := Finding(d).item;
    assert "note" + ":" + "a" == "note:a";
    assert SlotOf(item) == (Placement, "note:a");
    assert es[3] == Raised(item);
    assert Suppressed(Collect(es), item);
  }

  lemma {:induction false} TallyPositive(items: seq<Item>, item: Item)
    requires item in items
    ensures Tally(CategoryOf(), items, item.Category()) > 0
  {
    hide SpecOf;
    var front, last := items[..|items| - 1], items[|items| - 1];
    assert items == front + [last];
    if last != item {
      TallyPositive(front, item);
    }
  }
}
