/** What the attention derivation keeps of all signals: for each category and target the item whose
    reason has the least rank, listed by strictly increasing keys. */
module Attention {
  import opened Wrappers
  import opened Ordering
  import opened AttentionSignals
  import opened Texts

  datatype Input = Input(objects: seq<Object>, tasks: seq<Task>, diagnostics: seq<Diagnostic>,
                         coverage: seq<CoverageRow>, collected: bool)

  // The events of one derivation, in call order.

  function LabelsOf(objects: seq<Object>): Labels {
    if objects == [] then map[]
    else LabelsOf(objects[..|objects| - 1])[objects[|objects| - 1].objectId := objects[|objects| - 1]]
  }

  function ObjectTrace(ctx: Context): Object -> seq<Event> {
    o => ObjectSignals(o, ctx)
  }

  function TaskTrace(labels: Labels, ctx: Context): Task -> seq<Event> {
    t => TaskSignals(t, labels, ctx)
  }

  function DiagnosticTrace(labels: Labels): Diagnostic -> seq<Event> {
    d => DiagnosticSignals(d, labels)
  }

  function CoverageTrace(labels: Labels): CoverageRow -> seq<Event> {
    row => CoverageSignals(row, labels)
  }

  function CatalogSignals(collected: bool): seq<Event> {
    if collected then [] else [Raised(Item(CoverageNotCollected, CatalogTarget(), None, None))]
  }

  function Events(input: Input, ctx: Context): seq<Event> {
    var labels := LabelsOf(input.objects);
    FlatMap(ObjectTrace(ctx), input.objects) + FlatMap(TaskTrace(labels, ctx), input.tasks)
    + FlatMap(DiagnosticTrace(labels), input.diagnostics) + FlatMap(CoverageTrace(labels), input.coverage)
    + CatalogSignals(input.collected)
  }

  // Collection: one item per category and target.

  type Slot = (Category, string)

  function SlotOf(item: Item): Slot {
    (item.Category(), item.target.ref)
  }

  /** An item already kept wins against one of the same or a greater rank. */
  predicate Suppressed(kept: map<Slot, Item>, item: Item) {
    SlotOf(item) in kept && kept[SlotOf(item)].Rank() <= item.Rank()
  }

  function Keep(kept: map<Slot, Item>, event: Event): map<Slot, Item> {
    if event.Judged? || Suppressed(kept, event.item) then kept else kept[SlotOf(event.item) := event.item]
  }

  function Collect(events: seq<Event>): map<Slot, Item> {
    if events == [] then map[] else Keep(Collect(events[..|events| - 1]), events[|events| - 1])
  }

  predicate CodeIsKnown(item: Item, ctx: Context) {
    item.code.Some? ==> item.code.value in ctx.codes
  }

  /** Only an item that would be kept is validated. */
  predicate Rejected(kept: map<Slot, Item>, event: Event, ctx: Context) {
    event.Raised? && !Suppressed(kept, event.item) && !CodeIsKnown(event.item, ctx)
  }

  ghost predicate IsClean(events: seq<Event>, ctx: Context) {
    forall k | 0 <= k < |events| :: !Rejected(Collect(events[..k]), events[k], ctx)
  }

  function Judgements(events: seq<Event>, c: Category): nat {
    if events == [] then 0
    else Judgements(events[..|events| - 1], c) + if events[|events| - 1] == Judged(c) then 1 else 0
  }

  lemma CollectSnoc(events: seq<Event>, e: Event)
    ensures Collect(events + [e]) == Keep(Collect(events), e)
    ensures forall c :: Judgements(events + [e], c) == Judgements(events, c) + if e == Judged(c) then 1 else 0
  {
    assert (events + [e])[..|events + [e]| - 1] == events;
  }

  lemma CleanPrefix(a: seq<Event>, b: seq<Event>, ctx: Context)
    requires a <= b && IsClean(b, ctx)
    ensures IsClean(a, ctx)
  {
    forall k | 0 <= k < |a| ensures !Rejected(Collect(a[..k]), a[k], ctx) {
      assert a[..k] == b[..k];
    }
  }

  lemma CleanSnoc(events: seq<Event>, e: Event, ctx: Context)
    requires IsClean(events, ctx)
    ensures IsClean(events + [e], ctx) <==> !Rejected(Collect(events), e, ctx)
  {
    var all := events + [e];
    assert all[..|events|] == events;
    if !Rejected(Collect(events), e, ctx) {
      forall k | 0 <= k < |all| ensures !Rejected(Collect(all[..k]), all[k], ctx) {
        if k < |events| {
          assert all[..k] == events[..k];
        }
      }
    } else {
      assert Rejected(Collect(all[..|events|]), all[|events|], ctx);
    }
  }

  /** The kept items are raised ones, and none of the raised ones of a slot has a lesser rank. */
  ghost predicate KeepsLeast(kept: map<Slot, Item>, events: seq<Event>) {
    && (forall slot | slot in kept :: Raised(kept[slot]) in events && SlotOf(kept[slot]) == slot)
    && (forall item | Raised(item) in events :: Suppressed(kept, item))
  }

  lemma {:induction false} CollectKeepsLeast(events: seq<Event>)
    ensures KeepsLeast(Collect(events), events)
  {
    if events != [] {
      var front, last := events[..|events| - 1], events[|events| - 1];
      assert events == front + [last];
      CollectKeepsLeast(front);
    }
  }

  /** A derivation is rejected exactly when some item with an unknown supporting code is raised
      before every item of its slot with the same or a lesser rank. */
  lemma CleanIff(events: seq<Event>, ctx: Context)
    ensures IsClean(events, ctx) <==>
            forall k | 0 <= k < |events| && events[k].Raised? && !CodeIsKnown(events[k].item, ctx) ::
              exists j | 0 <= j < k :: events[j].Raised? && SlotOf(events[j].item) == SlotOf(events[k].item)
                                       && events[j].item.Rank() <= events[k].item.Rank()
  {
    forall k | 0 <= k < |events| && events[k].Raised?
      ensures Suppressed(Collect(events[..k]), events[k].item) <==>
              exists j | 0 <= j < k :: events[j].Raised? && SlotOf(events[j].item) == SlotOf(events[k].item)
                                       && events[j].item.Rank() <= events[k].item.Rank()
    {
      SuppressedIff(events[..k], events[k].item);
    }
  }

  lemma SuppressedIff(events: seq<Event>, item: Item)
    ensures Suppressed(Collect(events), item) <==>
            exists j | 0 <= j < |events| :: events[j].Raised? && SlotOf(events[j].item) == SlotOf(item)
                                            && events[j].item.Rank() <= item.Rank()
  {
    var kept := Collect(events);
    CollectKeepsLeast(events);
    if Suppressed(kept, item) {
      var first := kept[SlotOf(item)];
      assert Raised(first) in events;
      var j :| 0 <= j < |events| && events[j] == Raised(first);
      assert events[j].item == first;
    }
    forall j | 0 <= j < |events| && events[j].Raised? && SlotOf(events[j].item) == SlotOf(item)
               && events[j].item.Rank() <= item.Rank()
      ensures Suppressed(kept, item)
    {
      assert Raised(events[j].item) in events;
    }
  }

  // Keys.

  function Pad2(n: nat): string
    requires n < 100
  {
    [Digit(n / 10), Digit(n % 10)]
  }

  function Dashed(s: nat, c: nat, r: nat): string
    requires s < 100 && c < 100 && r < 100
  {
    Pad2(s) + ("-" + (Pad2(c) + ("-" + Pad2(r))))
  }

  /** The ranks of a reason's severity and category, and its own. */
  function Ranks(r: Reason): (t: (nat, nat, nat))
    ensures t.0 < 100 && t.1 < 100 && t.2 < 100
  {
    RankIsSmall(r);
    (SeverityRank(SpecOf(r).severity), CategoryRank(SpecOf(r).category), Rank(r))
  }

  function Primary(r: Reason): string {
    var t := Ranks(r);
    Dashed(t.0, t.1, t.2)
  }

  /** `AttentionItem.key`. */
  function KeyOf(reason: Reason, ref: string): Key {
    [Primary(reason), ref]
  }

  function ItemKey(): Item -> Key {
    (item: Item) => KeyOf(item.reason, item.target.ref)
  }

  lemma DigitOrder(m: nat, n: nat)
    requires m < 10 && n < 10
    ensures Digit(m) < Digit(n) <==> m < n
    ensures Digit(m) == Digit(n) <==> m == n
  {
  }

  lemma PadOrder(m: nat, n: nat)
    requires m < 100 && n < 100
    ensures StrLe(Pad2(m), Pad2(n)) <==> m <= n
    ensures Pad2(m) == Pad2(n) <==> m == n
  {
    DigitOrder(m / 10, n / 10);
    DigitOrder(m % 10, n % 10);
    var a, b := Pad2(m), Pad2(n);
    assert a[1..][1..] == [] && a[1..][0] == Digit(m % 10) && b[1..][0] == Digit(n % 10);
    assert StrLe(a[1..], b[1..]) <==> m % 10 <= n % 10;
    assert a == b ==> a[0] == b[0] && a[1] == b[1];
  }

  lemma {:induction false} StrLeJoin(p: string, q: string, x: string, y: string)
    requires |p| == |q|
    ensures StrLe(p + x, q + y) <==> if p == q then StrLe(x, y) else StrLe(p, q)
  {
    if p == [] {
      assert p + x == x && q + y == y;
    } else {
      assert (p + x)[1..] == p[1..] + x && (q + y)[1..] == q[1..] + y;
      assert p == [p[0]] + p[1..] && q == [q[0]] + q[1..];
      StrLeJoin(p[1..], q[1..], x, y);
    }
  }

  /** The numeric order of two reasons: severity, then category, then rank. */
  predicate Precedes(a: Reason, b: Reason) {
    var s, t := Ranks(a), Ranks(b);
    s.0 < t.0 || (s.0 == t.0 && (s.1 < t.1 || (s.1 == t.1 && s.2 <= t.2)))
  }

  lemma PadJoin(m: nat, n: nat, x: string, y: string)
    requires m < 100 && n < 100
    ensures StrLe(Pad2(m) + x, Pad2(n) + y) <==> m < n || (m == n && StrLe(x, y))
    ensures Pad2(m) + x == Pad2(n) + y <==> m == n && x == y
  {
    PadOrder(m, n);
    StrLeJoin(Pad2(m), Pad2(n), x, y);
    if Pad2(m) + x == Pad2(n) + y {
      assert (Pad2(m) + x)[..2] == Pad2(m) && (Pad2(n) + y)[..2] == Pad2(n);
      assert (Pad2(m) + x)[2..] == x && (Pad2(n) + y)[2..] == y;
    }
  }

  lemma DashJoin(x: string, y: string)
    ensures StrLe("-" + x, "-" + y) <==> StrLe(x, y)
    ensures "-" + x == "-" + y <==> x == y
  {
    StrLeJoin("-", "-", x, y);
    assert ("-" + x)[1..] == x && ("-" + y)[1..] == y;
  }

  lemma DashedOrder(s: nat, c: nat, r: nat, s': nat, c': nat, r': nat)
    requires s < 100 && c < 100 && r < 100 && s' < 100 && c' < 100 && r' < 100
    ensures StrLe(Dashed(s, c, r), Dashed(s', c', r')) <==> s < s' || (s == s' && (c < c' || (c == c' && r <= r')))
    ensures Dashed(s, c, r) == Dashed(s', c', r') <==> s == s' && c == c' && r == r'
  {
    hide StrLe, Pad2;
    PadOrder(r, r');
    DashJoin(Pad2(r), Pad2(r'));
    PadJoin(c, c', "-" + Pad2(r), "-" + Pad2(r'));
    DashJoin(Pad2(c) + ("-" + Pad2(r)), Pad2(c') + ("-" + Pad2(r')));
    PadJoin(s, s', "-" + (Pad2(c) + ("-" + Pad2(r))), "-" + (Pad2(c') + ("-" + Pad2(r'))));
  }

  lemma RanksDiffer(a: Reason, b: Reason)
    ensures Ranks(a) == Ranks(b) <==> a == b
  {
    hide SpecOf;
    if Ranks(a) == Ranks(b) {
      RankIsInjective(a, b);
    }
  }

  lemma PrimaryOrder(a: Reason, b: Reason)
    ensures StrLe(Primary(a), Primary(b)) <==> Precedes(a, b)
    ensures Primary(a) == Primary(b) <==> a == b
  {
    hide StrLe, Dashed, Ranks;
    var s, t := Ranks(a), Ranks(b);
    RanksDiffer(a, b);
    DashedOrder(s.0, s.1, s.2, t.0, t.1, t.2);
  }

  /** The zero-padded text order of keys is the numeric order of their ranks. */
  lemma KeyOrderIsRankOrder(a: Item, b: Item)
    ensures KeyLe(ItemKey()(a), ItemKey()(b)) <==>
            if a.reason == b.reason then StrLe(a.target.ref, b.target.ref) else Precedes(a.reason, b.reason)
  {
    hide Primary, Precedes, StrLe;
    PrimaryOrder(a.reason, b.reason);
    var x, y := ItemKey()(a), ItemKey()(b);
    assert x[0] == Primary(a.reason) && y[0] == Primary(b.reason);
    assert x[1..] == [a.target.ref] && y[1..] == [b.target.ref];
    assert x[1..][1..] == [];
    StrReflexive(a.target.ref);
    assert KeyLe(x[1..], y[1..]) <==> StrLe(a.target.ref, b.target.ref);
    assert KeyLe(x, y) <==> if x[0] == y[0] then KeyLe(x[1..], y[1..]) else StrLe(x[0], y[0]);
  }

  /** Items with one key have one reason and one target, so they share their slot. */
  lemma KeyGivesReason(a: Item, b: Item)
    requires ItemKey()(a) == ItemKey()(b)
    ensures a.reason == b.reason && a.target.ref == b.target.ref
  {
    hide Primary;
    assert ItemKey()(a)[0] == Primary(a.reason) && ItemKey()(b)[0] == Primary(b.reason);
    assert ItemKey()(a)[1] == a.target.ref && ItemKey()(b)[1] == b.target.ref;
    PrimaryOrder(a.reason, b.reason);
  }

  // Independence of input order.

  lemma {:induction false} JudgementsAreCounted(events: seq<Event>, c: Category)
    ensures Judgements(events, c) == multiset(events)[Judged(c)]
  {
    if events != [] {
      var front, last := events[..|events| - 1], events[|events| - 1];
      assert events == front + [last];
      JudgementsAreCounted(front, c);
    }
  }

  /** No two different objects share an id. */
  ghost predicate IdsAreDistinct(objects: seq<Object>) {
    forall x, y | x in objects && y in objects && x.objectId == y.objectId :: x == y
  }

  lemma {:induction false} LabelsFind(objects: seq<Object>)
    ensures forall id :: id in LabelsOf(objects) ==> LabelsOf(objects)[id] in objects && LabelsOf(objects)[id].objectId == id
    ensures forall o | o in objects :: o.objectId in LabelsOf(objects)
  {
    if objects != [] {
      var front, last := objects[..|objects| - 1], objects[|objects| - 1];
      assert objects == front + [last];
      LabelsFind(front);
    }
  }

  lemma LabelsForgetOrder(a: seq<Object>, b: seq<Object>)
    requires multiset(a) == multiset(b) && IdsAreDistinct(a)
    ensures LabelsOf(a) == LabelsOf(b)
  {
    LabelsFind(a);
    LabelsFind(b);
    MultisetMembers(a, b);
    forall id ensures id in LabelsOf(a) <==> id in LabelsOf(b) {
      if id in LabelsOf(a) {
        assert LabelsOf(a)[id] in b;
      }
      if id in LabelsOf(b) {
        assert LabelsOf(b)[id] in a;
      }
    }
  }

  /** The same inputs, each list in any order. */
  ghost predicate Permuted(a: Input, b: Input) {
    && multiset(a.objects) == multiset(b.objects)
    && multiset(a.tasks) == multiset(b.tasks)
    && multiset(a.diagnostics) == multiset(b.diagnostics)
    && multiset(a.coverage) == multiset(b.coverage)
    && a.collected == b.collected
  }

  lemma EventsForgetOrder(a: Input, b: Input, ctx: Context)
    requires Permuted(a, b) && IdsAreDistinct(a.objects)
    ensures multiset(Events(a, ctx)) == multiset(Events(b, ctx))
  {
    hide FlatMap, LabelsOf;
    LabelsForgetOrder(a.objects, b.objects);
    var labels := LabelsOf(a.objects);
    FlatMapKeepsMultisets(ObjectTrace(ctx), a.objects, b.objects);
    FlatMapKeepsMultisets(TaskTrace(labels, ctx), a.tasks, b.tasks);
    FlatMapKeepsMultisets(DiagnosticTrace(labels), a.diagnostics, b.diagnostics);
    FlatMapKeepsMultisets(CoverageTrace(labels), a.coverage, b.coverage);
  }

  /** The least rank of a slot decides its reason. */
  lemma LeastReason(kept: map<Slot, Item>, kept': map<Slot, Item>, events: seq<Event>, events': seq<Event>)
    requires KeepsLeast(kept, events) && KeepsLeast(kept', events') && multiset(events) == multiset(events')
    ensures forall slot | slot in kept :: slot in kept' && kept'[slot].reason == kept[slot].reason
  {
    hide SpecOf;
    MultisetMembers(events, events');
    forall slot | slot in kept ensures slot in kept' && kept'[slot].reason == kept[slot].reason {
      assert Raised(kept[slot]) in events';
      assert Suppressed(kept', kept[slot]);
      assert Raised(kept'[slot]) in events;
      assert Suppressed(kept, kept'[slot]);
      RankIsInjective(kept[slot].reason, kept'[slot].reason);
    }
  }

  // The published list.

  /** The kept items, by strictly increasing key. */
  ghost predicate IsListing(items: seq<Item>, kept: map<Slot, Item>) {
    && StrictlySortedBy(ItemKey(), items)
    && forall item :: item in items <==> SlotOf(item) in kept && kept[SlotOf(item)] == item
  }

  type Pair = (Reason, string)

  function PairOf(): Item -> Pair {
    (item: Item) => (item.reason, item.target.ref)
  }

  function PairKey(): Pair -> Key {
    (p: Pair) => KeyOf(p.0, p.1)
  }

  lemma SameMembersSameMultiset<T>(a: seq<T>, b: seq<T>)
    requires forall i, j | 0 <= i < j < |a| :: a[i] != a[j]
    requires forall i, j | 0 <= i < j < |b| :: b[i] != b[j]
    requires forall x :: x in a <==> x in b
    ensures multiset(a) == multiset(b)
  {
    forall x ensures multiset(a)[x] == multiset(b)[x] {
      NoRepeats(a, x);
      NoRepeats(b, x);
      assert x in a <==> x in multiset(a);
      assert x in b <==> x in multiset(b);
    }
  }

  lemma PairsOfListing(items: seq<Item>, kept: map<Slot, Item>)
    requires IsListing(items, kept)
    ensures StrictlySortedBy(PairKey(), Map(PairOf(), items))
    ensures forall p: Pair :: p in Map(PairOf(), items) <==>
              var slot := (SpecOf(p.0).category, p.1); slot in kept && kept[slot].reason == p.0 && SlotOf(kept[slot]) == slot
  {
    hide SpecOf, Primary, KeyLe;
    var pairs := Map(PairOf(), items);
    forall p: Pair ensures p in pairs <==>
                           var slot := (SpecOf(p.0).category, p.1);
                           slot in kept && kept[slot].reason == p.0 && SlotOf(kept[slot]) == slot
    {
      var slot := (SpecOf(p.0).category, p.1);
      if p in pairs {
        var i :| 0 <= i < |pairs| && pairs[i] == p;
        assert items[i] in items && SlotOf(items[i]) == slot;
      }
      if slot in kept && kept[slot].reason == p.0 && SlotOf(kept[slot]) == slot {
        var i :| 0 <= i < |items| && items[i] == kept[slot];
        assert pairs[i] == p;
      }
    }
  }

  /** Whatever the order of each input list, the same targets are listed for the same reasons, in
      the same order, and every category is judged for the same number of inputs. */
  lemma OrderFree(a: Input, b: Input, ctx: Context, items: seq<Item>, items': seq<Item>)
    requires Permuted(a, b) && IdsAreDistinct(a.objects)
    requires IsListing(items, Collect(Events(a, ctx))) && IsListing(items', Collect(Events(b, ctx)))
    ensures Map(PairOf(), items) == Map(PairOf(), items')
    ensures forall c :: Judgements(Events(a, ctx), c) == Judgements(Events(b, ctx), c)
  {
    hide Events, Collect, SpecOf, Primary, KeyLe, Permuted, Map;
    var ea, eb := Events(a, ctx), Events(b, ctx);
    EventsForgetOrder(a, b, ctx);
    CollectKeepsLeast(ea);
    CollectKeepsLeast(eb);
    LeastReason(Collect(ea), Collect(eb), ea, eb);
    LeastReason(Collect(eb), Collect(ea), eb, ea);
    PairsOfListing(items, Collect(ea));
    PairsOfListing(items', Collect(eb));
    var pa, pb := Map(PairOf(), items), Map(PairOf(), items');
    SameMembersSameMultiset(pa, pb);
    SortedIsUnique(PairKey(), pa, pb);
    forall c ensures Judgements(ea, c) == Judgements(eb, c) {
      JudgementsAreCounted(ea, c);
      JudgementsAreCounted(eb, c);
    }
  }

  // Which categories a listed item was judged for.

  /** An item's category was judged for some input, but for two reasons: an invalid placement edge
      of an object that is not judged for placement, and a catalog whose coverage was not collected. */
  lemma RaisedWasJudged(input: Input, ctx: Context, item: Item)
    requires Raised(item) in Events(input, ctx)
    requires item.reason != PlacementRelationshipInvalid && item.reason != CoverageNotCollected
    ensures Judgements(Events(input, ctx), item.Category()) > 0
  {
    hide FlatMap, LabelsOf, Judgements, ObjectSignals, TaskSignals, DiagnosticSignals, CoverageSignals, SpecOf;
    var labels := LabelsOf(input.objects);
    FlatMapMember(ObjectTrace(ctx), input.objects, Raised(item));
    FlatMapMember(TaskTrace(labels, ctx), input.tasks, Raised(item));
    FlatMapMember(DiagnosticTrace(labels), input.diagnostics, Raised(item));
    FlatMapMember(CoverageTrace(labels), input.coverage, Raised(item));
    var judged := Judged(item.Category());
    FlatMapMember(ObjectTrace(ctx), input.objects, judged);
    FlatMapMember(TaskTrace(labels, ctx), input.tasks, judged);
    FlatMapMember(CoverageTrace(labels), input.coverage, judged);
    LabelsFind(input.objects);
    assert judged in Events(input, ctx) by {
      if o :| o in input.objects && Raised(item) in ObjectSignals(o, ctx) {
        ObjectJudges(o, ctx, item);
      } else if t :| t in input.tasks && Raised(item) in TaskSignals(t, labels, ctx) {
        TaskJudges(t, labels, ctx, item);
      } else if d :| d in input.diagnostics && Raised(item) in DiagnosticSignals(d, labels) {
        DiagnosticJudges(d, labels, ctx, item);
      } else if row :| row in input.coverage && Raised(item) in CoverageSignals(row, labels) {
        CoverageJudges(row, labels, item);
      }
    }
    JudgementsAreCounted(Events(input, ctx), item.Category());
  }

  lemma TaskJudges(t: Task, labels: Labels, ctx: Context, item: Item)
    requires Raised(item) in TaskSignals(t, labels, ctx)
    ensures Judged(item.Category()) in TaskSignals(t, labels, ctx)
  {
  }

  lemma CoverageJudges(row: CoverageRow, labels: Labels, item: Item)
    requires Raised(item) in CoverageSignals(row, labels)
    ensures Judged(item.Category()) in CoverageSignals(row, labels)
  {
  }

  lemma DiagnosticJudges(d: Diagnostic, labels: Labels, ctx: Context, item: Item)
    requires Raised(item) in DiagnosticSignals(d, labels) && item.reason != PlacementRelationshipInvalid
    ensures d.objectId in labels && Judged(item.Category()) in ObjectSignals(labels[d.objectId], ctx)
  {
    hide IsLive;
    assert item.Category() == RelationshipIntegrity;
    assert Judged(RelationshipIntegrity) in ValidRecordSignals(labels[d.objectId], ctx);
  }

  ghost predicate JudgesItself(events: seq<Event>) {
    forall item | Raised(item) in events :: Judged(item.Category()) in events
  }

  lemma RecordsJudge(o: Object)
    ensures JudgesItself(PlacementSignals(o)) && JudgesItself(LifecycleSignals(o)) && JudgesItself(ReleaseSignals(o))
  {
  }

  lemma ReviewsJudge(o: Object, ctx: Context)
    ensures JudgesItself(ProvenanceSignals(o, ctx)) && JudgesItself(KnowledgeSignals(o, ctx))
  {
    hide IsPast, Code, DataText, Trimmed;
  }

  lemma RunbookJudges(o: Object, ctx: Context)
    ensures JudgesItself(RunbookSignals(o, ctx))
  {
    hide IsPast, Code, DataText, Trimmed;
  }

  lemma MonitoringJudges(o: Object, ctx: Context)
    ensures JudgesItself(MonitoringSignals(o, ctx))
  {
    hide ObservationSignals;
    if o.monitoring.Some? {
      ObservationsAreMonitoring(o, o.monitoring.value, ctx);
    }
  }

  lemma ObservationsAreMonitoring(o: Object, m: MonitoringView, ctx: Context)
    ensures forall item | Raised(item) in ObservationSignals(o, m, ctx) :: item.Category() == Monitoring
  {
    hide Code;
  }

  lemma ObjectJudges(o: Object, ctx: Context, item: Item)
    requires Raised(item) in ObjectSignals(o, ctx)
    ensures Judged(item.Category()) in ObjectSignals(o, ctx)
  {
    hide IsLive, PlacementSignals, LifecycleSignals, ReleaseSignals, ProvenanceSignals, KnowledgeSignals, MonitoringSignals,
         RunbookSignals;
    RecordsJudge(o);
    ReviewsJudge(o, ctx);
    RunbookJudges(o, ctx);
    MonitoringJudges(o, ctx);
  }
}
