/** What a derivation lists, and the state its summary gives each category, read off its inputs. */
module AttentionListing {
  import opened Wrappers
  import opened Ordering
  import opened AttentionSignals
  import opened AttentionReadings
  import opened Attention
  import opened AttentionSummary

  /** Some input of the derivation raises the item. */
  ghost predicate Raises(input: Input, ctx: Context, item: Item) {
    var labels := LabelsOf(input.objects);
    || (exists o :: o in input.objects && Tells(item, o, ctx))
    || (exists t :: t in input.tasks && Overdue(t, labels, ctx)
                    && item == Item(TaskDeadlineOverdue, TaskTarget(t, labels[t.projectId]), None, None))
    || (exists d :: d in input.diagnostics && TellsDiagnostic(item, d, labels))
    || (exists row :: row in input.coverage && TellsCoverage(item, row, labels))
    || (!input.collected && item == Item(CoverageNotCollected, CatalogTarget(), None, None))
  }

  ghost predicate TellsDiagnostic(item: Item, d: Diagnostic, labels: Labels) {
    && CountsIn(d.objectId, labels) && Explains(item.reason, d, labels[d.objectId].kind)
    && item == Item(item.reason, ObjectTarget(labels[d.objectId]), Some(d.code), None)
  }

  ghost predicate TellsCoverage(item: Item, row: CoverageRow, labels: Labels) {
    && CountsIn(row.objectId, labels)
    && ((item.reason == CoverageImportDrift && row.state == "source_changed_since_import")
        || (item.reason == CoverageMappingAmbiguous && (row.state == "ambiguous_mapping" || row.state == "duplicate_mapping")))
    && item == Item(item.reason, ObjectTarget(labels[row.objectId]), Some(row.state), Some(row.observedAt))
  }

  lemma ObjectsRaise(input: Input, ctx: Context, item: Item)
    ensures Raised(item) in FlatMap(ObjectTrace(ctx), input.objects) <==> exists o :: o in input.objects && Tells(item, o, ctx)
  {
    hide ObjectSignals, Tells, FlatMap;
    FlatMapMember(ObjectTrace(ctx), input.objects, Raised(item));
    forall o ensures Raised(item) in ObjectSignals(o, ctx) <==> Tells(item, o, ctx) {
      RaisedIff(o, ctx, item);
    }
  }

  lemma TasksRaise(input: Input, ctx: Context, labels: Labels, item: Item)
    ensures Raised(item) in FlatMap(TaskTrace(labels, ctx), input.tasks) <==>
            exists t :: t in input.tasks && Overdue(t, labels, ctx)
                        && item == Item(TaskDeadlineOverdue, TaskTarget(t, labels[t.projectId]), None, None)
  {
    hide TaskSignals, FlatMap, Qualifies, TaskTarget;
    FlatMapMember(TaskTrace(labels, ctx), input.tasks, Raised(item));
    forall t ensures Raised(item) in TaskSignals(t, labels, ctx) <==>
                     Overdue(t, labels, ctx) && item == Item(TaskDeadlineOverdue, TaskTarget(t, labels[t.projectId]), None, None)
    {
      TaskIff(t, labels, ctx, item);
    }
  }

  lemma DiagnosticsRaise(input: Input, labels: Labels, item: Item)
    ensures Raised(item) in FlatMap(DiagnosticTrace(labels), input.diagnostics) <==>
            exists d :: d in input.diagnostics && TellsDiagnostic(item, d, labels)
  {
    hide DiagnosticSignals, FlatMap, Qualifies, ObjectTarget, Explains;
    FlatMapMember(DiagnosticTrace(labels), input.diagnostics, Raised(item));
    forall d ensures Raised(item) in DiagnosticSignals(d, labels) <==> TellsDiagnostic(item, d, labels) {
      DiagnosticIff(d, labels, item);
    }
  }

  lemma CoverageRaises(input: Input, labels: Labels, item: Item)
    ensures Raised(item) in FlatMap(CoverageTrace(labels), input.coverage) <==>
            exists row :: row in input.coverage && TellsCoverage(item, row, labels)
  {
    hide CoverageSignals, FlatMap, Qualifies, ObjectTarget;
    FlatMapMember(CoverageTrace(labels), input.coverage, Raised(item));
    forall row ensures Raised(item) in CoverageSignals(row, labels) <==> TellsCoverage(item, row, labels) {
      CoverageIff(row, labels, item);
    }
  }

  /** The events of a derivation raise exactly what its inputs do. */
  lemma EventsIff(input: Input, ctx: Context, item: Item)
    ensures Raised(item) in Events(input, ctx) <==> Raises(input, ctx, item)
  {
    hide FlatMap, Tells, Overdue, TellsDiagnostic, TellsCoverage, LabelsOf, TaskTarget;
    var labels := LabelsOf(input.objects);
    ObjectsRaise(input, ctx, item);
    TasksRaise(input, ctx, labels, item);
    DiagnosticsRaise(input, labels, item);
    CoverageRaises(input, labels, item);
  }

  /** Two items compete when they are about one target in one category; the lesser rank wins. */
  ghost predicate Beats(a: Item, b: Item) {
    SpecOf(a.reason).category == SpecOf(b.reason).category && a.target.ref == b.target.ref && Rank(a.reason) < Rank(b.reason)
  }

  ghost predicate Holds(kept: map<Slot, Item>, reason: Reason, ref: string) {
    exists slot :: slot in kept && kept[slot].reason == reason && kept[slot].target.ref == ref
  }

  ghost predicate Unbeaten(events: seq<Event>, item: Item) {
    Raised(item) in events && forall other | Raised(other) in events :: !Beats(other, item)
  }

  lemma HeldIsUnbeaten(events: seq<Event>, kept: map<Slot, Item>, slot: Slot)
    requires KeepsLeast(kept, events) && slot in kept
    ensures Unbeaten(events, kept[slot])
  {
    hide SpecOf;
    forall other | Raised(other) in events ensures !Beats(other, kept[slot]) {
      assert Suppressed(kept, other);
    }
  }

  lemma UnbeatenIsHeld(events: seq<Event>, kept: map<Slot, Item>, item: Item)
    requires KeepsLeast(kept, events) && Unbeaten(events, item)
    ensures Holds(kept, item.reason, item.target.ref)
  {
    hide SpecOf;
    assert Suppressed(kept, item);
    var other := kept[SlotOf(item)];
    assert Raised(other) in events && SlotOf(other) == SlotOf(item);
    assert !Beats(other, item);
    RankIsInjective(other.reason, item.reason);
  }

  /** The item is raised by some input and beaten by no raised one. */
  ghost predicate Stands(input: Input, ctx: Context, item: Item) {
    Raises(input, ctx, item) && forall other | Raises(input, ctx, other) :: !Beats(other, item)
  }

  lemma StandsIff(input: Input, ctx: Context, item: Item)
    ensures Unbeaten(Events(input, ctx), item) <==> Stands(input, ctx, item)
  {
    hide Events, Beats, Raises;
    forall other ensures Raised(other) in Events(input, ctx) <==> Raises(input, ctx, other) {
      EventsIff(input, ctx, other);
    }
  }

  /** A reason is kept for a target exactly when some input raises it there and no input raises a reason of
      the same category and lesser rank for that target. */
  lemma KeptIff(input: Input, ctx: Context, reason: Reason, ref: string)
    ensures Holds(Collect(Events(input, ctx)), reason, ref) <==>
            exists item :: Stands(input, ctx, item) && item.reason == reason && item.target.ref == ref
  {
    hide Events, Collect, Stands, Unbeaten, KeepsLeast;
    var events := Events(input, ctx);
    var kept := Collect(events);
    CollectKeepsLeast(events);
    if slot :| slot in kept && kept[slot].reason == reason && kept[slot].target.ref == ref {
      HeldIsUnbeaten(events, kept, slot);
      StandsIff(input, ctx, kept[slot]);
    }
    if item :| Stands(input, ctx, item) && item.reason == reason && item.target.ref == ref {
      StandsIff(input, ctx, item);
      UnbeatenIsHeld(events, kept, item);
    }
  }

  // The state of a category.

  ghost predicate ListsState(items: seq<Item>, c: Category, state: SignalState) {
    exists i :: 0 <= i < |items| && SpecOf(items[i].reason).category == c && SpecOf(items[i].reason).state == state
  }

  lemma {:induction false} StatesIff(items: seq<Item>, c: Category, state: SignalState)
    ensures state in StatesOf(items, c) <==> ListsState(items, c, state)
  {
    hide SpecOf;
    if items != [] {
      var front, n := items[..|items| - 1], |items| - 1;
      StatesIff(front, c, state);
      if i :| 0 <= i < |front| && SpecOf(front[i].reason).category == c && SpecOf(front[i].reason).state == state {
        assert items[i] == front[i];
      }
      if i :| 0 <= i < |items| && SpecOf(items[i].reason).category == c && SpecOf(items[i].reason).state == state {
        assert i < n ==> front[i] == items[i];
      }
    }
  }

  /** A category is unknown without a collected snapshot if it is about coverage; otherwise it is not
      applicable when nothing was judged, and else as stale, unknown or current as its worst listed item. */
  lemma CategoryStateIff(items: seq<Item>, c: Category, evaluated: nat, collected: bool)
    ensures CategoryState(c, evaluated, StatesOf(items, c), collected) == NotApplicable <==>
            evaluated == 0 && (c == SourceCoverage ==> collected)
    ensures CategoryState(c, evaluated, StatesOf(items, c), collected) == Stale <==>
            evaluated > 0 && (c == SourceCoverage ==> collected) && ListsState(items, c, Stale)
    ensures CategoryState(c, evaluated, StatesOf(items, c), collected) == Unknown <==>
            (c == SourceCoverage && !collected)
            || (evaluated > 0 && ListsState(items, c, Unknown) && !ListsState(items, c, Stale))
    ensures CategoryState(c, evaluated, StatesOf(items, c), collected) == Current <==>
            evaluated > 0 && (c == SourceCoverage ==> collected) && !ListsState(items, c, Stale) && !ListsState(items, c, Unknown)
  {
    hide StatesOf, ListsState;
    StatesIff(items, c, Stale);
    StatesIff(items, c, Unknown);
  }
}
