/** The derivation as it runs: the counters and the kept items it updates, its published list, and
    the summary counted over that list. */
module AttentionRun {
  import opened Wrappers
  import opened Counts
  import opened Ordering
  import opened AttentionSignals
  import opened Attention

  datatype AttentionError = AttentionError

  type Evaluated = map<Category, nat>

  lemma Stage<T>(before: seq<Event>, f: T -> seq<Event>, s: seq<T>, i: nat)
    requires i < |s|
    ensures before + FlatMap(f, s[..i + 1]) == before + FlatMap(f, s[..i]) + f(s[i])
    ensures before + FlatMap(f, s[..i + 1]) <= before + FlatMap(f, s)
  {
    hide FlatMap;
    FlatMapSnoc(f, s, i);
    FlatMapPrefix(f, s, i + 1);
    PrefixAfter(before, FlatMap(f, s[..i + 1]), FlatMap(f, s));
    assert before + (FlatMap(f, s[..i]) + f(s[i])) == before + FlatMap(f, s[..i]) + f(s[i]);
  }

  lemma PrefixAfter(before: seq<Event>, a: seq<Event>, b: seq<Event>)
    requires a <= b
    ensures before + a <= before + b
  {
    assert before + b == before + a + b[|a|..];
  }

  lemma JudgementsPass(kept: map<Slot, Item>, c: Category, ctx: Context)
    ensures !Rejected(kept, Judged(c), ctx)
  {
  }

  lemma NothingIsClean(ctx: Context)
    ensures IsClean([], ctx)
  {
  }

  class Derivation {
    var collected: map<Slot, Item>
    var evaluated: Evaluated
    ghost var events: seq<Event>

    ghost predicate Valid()
      reads this
    {
      collected == Collect(events) && forall c :: c in evaluated && evaluated[c] == Judgements(events, c)
    }

    constructor ()
      ensures Valid() && events == []
    {
      collected := map[];
      evaluated := Zeros(CATEGORIES);
      events := [];
      new;
      forall c ensures c in evaluated {
        CategoryRankIsPosition(c);
      }
    }

    /** Keeps the item unless its slot holds one of the same or a lesser rank. */
    method Emit(item: Item, ctx: Context) returns (ok: bool)
      requires Valid()
      modifies this
      ensures ok <==> !Rejected(old(collected), Raised(item), ctx)
      ensures ok ==> Valid() && events == old(events) + [Raised(item)]
      ensures !ok ==> unchanged(this)
    {
      hide SpecOf, Collect, Judgements;
      CollectSnoc(events, Raised(item));
      var slot := SlotOf(item);
      if slot in collected && collected[slot].Rank() <= item.Rank() {
        events := events + [Raised(item)];
        return true;
      }
      if item.code.Some? && item.code.value !in ctx.codes {
        return false;
      }
      collected := collected[slot := item];
      events := events + [Raised(item)];
      return true;
    }

    method Judge(c: Category)
      requires Valid()
      modifies this
      ensures Valid() && events == old(events) + [Judged(c)]
    {
      hide Collect, Judgements;
      CollectSnoc(events, Judged(c));
      evaluated := evaluated[c := evaluated[c] + 1];
      events := events + [Judged(c)];
    }

    /** The signals of one input, one after the other. */
    method Play(trace: seq<Event>, ctx: Context) returns (ok: bool)
      requires Valid() && IsClean(events, ctx)
      modifies this
      ensures ok ==> Valid() && IsClean(events, ctx) && events == old(events) + trace
      ensures !ok ==> !IsClean(old(events) + trace, ctx)
    {
      hide IsClean, Collect, Judgements, Rejected;
      ghost var was := events;
      for i := 0 to |trace|
        invariant Valid() && IsClean(events, ctx) && events == was + trace[..i]
      {
        assert was + trace[..i + 1] == was + trace[..i] + [trace[i]];
        CleanSnoc(events, trace[i], ctx);
        match trace[i]
        case Judged(c) =>
          JudgementsPass(collected, c, ctx);
          Judge(c);
        case Raised(item) =>
          ok := Emit(item, ctx);
          if !ok {
            assert was + trace[..i + 1] <= was + trace;
            if IsClean(was + trace, ctx) {
              CleanPrefix(was + trace[..i + 1], was + trace, ctx);
            }
            return;
          }
      }
      assert trace[..|trace|] == trace;
      ok := true;
    }

    method PlayAll<T>(f: T -> seq<Event>, s: seq<T>, ctx: Context) returns (ok: bool)
      requires Valid() && IsClean(events, ctx)
      modifies this
      ensures ok ==> Valid() && IsClean(events, ctx) && events == old(events) + FlatMap(f, s)
      ensures !ok ==> !IsClean(old(events) + FlatMap(f, s), ctx)
    {
      hide IsClean, Collect, Judgements, FlatMap;
      ghost var was := events;
      FlatMapEmpty(f, s);
      for i := 0 to |s|
        invariant Valid() && IsClean(events, ctx) && events == was + FlatMap(f, s[..i])
      {
        Stage(was, f, s, i);
        ok := Play(f(s[i]), ctx);
        if !ok {
          if IsClean(was + FlatMap(f, s), ctx) {
            CleanPrefix(was + FlatMap(f, s[..i + 1]), was + FlatMap(f, s), ctx);
          }
          return;
        }
      }
      assert s[..|s|] == s;
      ok := true;
    }

    method AddObjects(objects: seq<Object>, ctx: Context) returns (ok: bool, labels: Labels)
      requires Valid() && IsClean(events, ctx)
      modifies this
      ensures ok ==> Valid() && IsClean(events, ctx) && events == old(events) + FlatMap(ObjectTrace(ctx), objects)
      ensures ok ==> labels == LabelsOf(objects)
      ensures !ok ==> !IsClean(old(events) + FlatMap(ObjectTrace(ctx), objects), ctx)
    {
      hide IsClean, Collect, Judgements, FlatMap, ObjectSignals;
      ghost var was, f := events, ObjectTrace(ctx);
      labels := map[];
      FlatMapEmpty(f, objects);
      for i := 0 to |objects|
        invariant Valid() && IsClean(events, ctx) && events == was + FlatMap(f, objects[..i])
        invariant labels == LabelsOf(objects[..i])
      {
        Stage(was, f, objects, i);
        assert objects[..i + 1][..i] == objects[..i];
        labels := labels[objects[i].objectId := objects[i]];
        ok := Play(ObjectSignals(objects[i], ctx), ctx);
        if !ok {
          if IsClean(was + FlatMap(f, objects), ctx) {
            CleanPrefix(was + FlatMap(f, objects[..i + 1]), was + FlatMap(f, objects), ctx);
          }
          return;
        }
      }
      assert objects[..|objects|] == objects;
      ok := true;
    }

    method AddTasks(tasks: seq<Task>, labels: Labels, ctx: Context) returns (ok: bool)
      requires Valid() && IsClean(events, ctx)
      modifies this
      ensures ok ==> Valid() && IsClean(events, ctx) && events == old(events) + FlatMap(TaskTrace(labels, ctx), tasks)
      ensures ok ==> forall t | t in tasks :: !TaskFails(t, labels, ctx)
      ensures !ok ==> || (exists t | t in tasks :: TaskFails(t, labels, ctx))
                      || !IsClean(old(events) + FlatMap(TaskTrace(labels, ctx), tasks), ctx)
    {
      hide IsClean, Collect, Judgements, FlatMap, TaskSignals, TaskFails;
      ghost var was, f := events, TaskTrace(labels, ctx);
      FlatMapEmpty(f, tasks);
      for i := 0 to |tasks|
        invariant Valid() && IsClean(events, ctx) && events == was + FlatMap(f, tasks[..i])
        invariant forall t | t in tasks[..i] :: !TaskFails(t, labels, ctx)
      {
        if TaskFails(tasks[i], labels, ctx) {
          return false;
        }
        Stage(was, f, tasks, i);
        ok := Play(TaskSignals(tasks[i], labels, ctx), ctx);
        if !ok {
          if IsClean(was + FlatMap(f, tasks), ctx) {
            CleanPrefix(was + FlatMap(f, tasks[..i + 1]), was + FlatMap(f, tasks), ctx);
          }
          return;
        }
      }
      assert tasks[..|tasks|] == tasks;
      ok := true;
    }
  }

  // The whole derivation.

  /** The kept items, sorted by key. */
  method ListKept(kept: map<Slot, Item>) returns (items: seq<Item>)
    requires forall slot | slot in kept :: SlotOf(kept[slot]) == slot
    ensures IsListing(items, kept)
  {
    hide SpecOf, Primary, KeyLe;
    var found: seq<Item> := [];
    var left := kept.Keys;
    while left != {}
      invariant left <= kept.Keys
      invariant forall item :: item in found <==> SlotOf(item) in kept && SlotOf(item) !in left && kept[SlotOf(item)] == item
      invariant forall i, j | 0 <= i < j < |found| :: SlotOf(found[i]) != SlotOf(found[j])
    {
      var slot :| slot in left;
      found := found + [kept[slot]];
      left := left - {slot};
    }
    items := SortBy(ItemKey(), found);
    MultisetMembers(found, items);
    forall i, j | 0 <= i < j < |found| ensures ItemKey()(found[i]) != ItemKey()(found[j]) {
      if ItemKey()(found[i]) == ItemKey()(found[j]) {
        KeyGivesReason(found[i], found[j]);
      }
    }
    SortByStrict(ItemKey(), found);
  }

  ghost predicate DuesAreRead(input: Input, ctx: Context) {
    forall t | t in input.tasks :: !TaskFails(t, LabelsOf(input.objects), ctx)
  }

  /** Stages of the event list, for the prefixes at which a run can stop. */
  lemma EventStages(input: Input, ctx: Context, a: seq<Event>, b: seq<Event>, c: seq<Event>, d: seq<Event>)
    requires var labels := LabelsOf(input.objects);
             && a == FlatMap(ObjectTrace(ctx), input.objects)
             && b == a + FlatMap(TaskTrace(labels, ctx), input.tasks)
             && c == b + FlatMap(DiagnosticTrace(labels), input.diagnostics)
             && d == c + FlatMap(CoverageTrace(labels), input.coverage)
    ensures a <= Events(input, ctx) && b <= Events(input, ctx) && c <= Events(input, ctx) && d <= Events(input, ctx)
    ensures Events(input, ctx) == d + CatalogSignals(input.collected)
  {
    hide FlatMap;
  }

  lemma StopsEarly(part: seq<Event>, all: seq<Event>, ctx: Context)
    requires part <= all && !IsClean(part, ctx)
    ensures !IsClean(all, ctx)
  {
    if IsClean(all, ctx) {
      CleanPrefix(part, all, ctx);
    }
  }

  /** `build_attention_derivation`: it succeeds exactly when every counted due date can be read and
      no kept item carries an unknown code, and then lists what the events leave. */
  method BuildDerivation(input: Input, ctx: Context) returns (r: Result<(seq<Item>, Evaluated), AttentionError>)
    ensures r.Ok? <==> DuesAreRead(input, ctx) && IsClean(Events(input, ctx), ctx)
    ensures r.Ok? ==> IsListing(r.value.0, Collect(Events(input, ctx)))
    ensures r.Ok? ==> forall c :: c in r.value.1 && r.value.1[c] == Judgements(Events(input, ctx), c)
  {
    hide IsClean, Collect, Judgements, FlatMap, LabelsOf, Events, TaskFails, CatalogSignals, SpecOf;
    ghost var labels' := LabelsOf(input.objects);
    ghost var a := FlatMap(ObjectTrace(ctx), input.objects);
    ghost var b := a + FlatMap(TaskTrace(labels', ctx), input.tasks);
    ghost var c := b + FlatMap(DiagnosticTrace(labels'), input.diagnostics);
    ghost var d := c + FlatMap(CoverageTrace(labels'), input.coverage);
    ghost var all := Events(input, ctx);
    EventStages(input, ctx, a, b, c, d);
    var run := new Derivation();
    assert [] + a == a;
    NothingIsClean(ctx);
    var ok, labels := run.AddObjects(input.objects, ctx);
    if !ok {
      StopsEarly(a, all, ctx);
      return Err(AttentionError);
    }
    ok := run.AddTasks(input.tasks, labels, ctx);
    if !ok {
      if !IsClean(b, ctx) {
        StopsEarly(b, all, ctx);
      }
      return Err(AttentionError);
    }
    ok := run.PlayAll(DiagnosticTrace(labels), input.diagnostics, ctx);
    if !ok {
      StopsEarly(c, all, ctx);
      return Err(AttentionError);
    }
    ok := run.PlayAll(CoverageTrace(labels), input.coverage, ctx);
    if !ok {
      StopsEarly(d, all, ctx);
      return Err(AttentionError);
    }
    ok := run.Play(CatalogSignals(input.collected), ctx);
    if !ok {
      return Err(AttentionError);
    }
    CollectKeepsLeast(all);
    var items := ListKept(run.collected);
    return Ok((items, run.evaluated));
  }
}
