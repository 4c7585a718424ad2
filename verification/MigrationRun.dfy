/** The two passes as they run: a capture that reads every item and writes what it found, and a
    validation that derives the plan, the comments and the asset table again from what was written. */
module MigrationRun {
  import opened JsonValues
  import opened Wrappers
  import opened Numbers
  import opened Ordering
  import opened Pagination
  import opened MigrationAssets
  import opened MigrationChecks
  import opened MigrationCapture

  lemma ListedReferences(order: Json -> seq<Json>, sources: seq<Json>)
    requires Lists(order)
    ensures Among(FlatMap(order, sources)) == References(sources)
  {
    hide FlatMap;
    forall c ensures c in FlatMap(order, sources) <==> c in References(sources) {
      FlatMapMember(order, sources, c);
    }
  }

  lemma AddThenSet<K, V>(a: map<K, V>, b: map<K, V>, k: K, v: V)
    ensures a + b[k := v] == (a + b)[k := v]
  {
  }

  lemma StartOfList(list: seq<Json>, parent: Parent)
    ensures ById(list[..0]) == map[] && ParentsOf(list[..0], parent) == map[]
  {
  }

  lemma CommentsSnoc(list: seq<Json>, parent: Parent, i: nat)
    requires i < |list| && list[i].IntAt("id").Some?
    ensures var id := list[i].IntAt("id").value;
            && ById(list[..i + 1]) == ById(list[..i])[id := list[i]]
            && ParentsOf(list[..i + 1], parent) == ParentsOf(list[..i], parent)[id := parent]
  {
    assert list[..i + 1][..i] == list[..i] && list[..i + 1][i] == list[i];
  }

  function Among(refs: seq<Json>): set<Json> {
    set c | c in refs
  }

  predicate AllDownloaded(met: set<Identity>, downloads: Files) {
    forall a | a in met :: a.uuid in downloads
  }

  lemma NothingIdentified(refs: seq<Json>, downloads: Files, naming: Naming)
    ensures AllIdentified(Among(refs[..0]), naming) && Identified(Among(refs[..0]), naming) == {}
    ensures Uuids(Identified(Among(refs[..0]), naming)) == {} && AllDownloaded(Identified(Among(refs[..0]), naming), downloads)
  {
  }

  lemma SetStep(a: set<Identity>, b: set<Identity>, x: Identity)
    ensures a + (b + {x}) == a + b + {x}
  {
  }

  lemma IdentifiedSnoc(refs: seq<Json>, i: nat, naming: Naming)
    requires i < |refs|
    ensures AllIdentified(Among(refs[..i + 1]), naming) <==>
            AllIdentified(Among(refs[..i]), naming) && Identify(refs[i], naming).Ok?
    ensures Identify(refs[i], naming).Ok? ==>
              && Identified(Among(refs[..i + 1]), naming)
                 == Identified(Among(refs[..i]), naming) + {Identify(refs[i], naming).value}
              && Uuids(Identified(Among(refs[..i + 1]), naming))
                 == Uuids(Identified(Among(refs[..i]), naming)) + {Identify(refs[i], naming).value.uuid}
    ensures Identified(Among(refs[..i + 1]), naming) <= Identified(Among(refs), naming)
  {
    hide Identify;
    assert refs[..i + 1] == refs[..i] + [refs[i]];
    assert Among(refs[..i + 1]) == Among(refs[..i]) + {refs[i]};
    assert forall c | c in refs[..i + 1] :: c in refs;
  }

  lemma DownloadedSnoc(refs: seq<Json>, i: nat, downloads: Files, naming: Naming)
    requires i < |refs| && Identify(refs[i], naming).Ok?
    requires AllDownloaded(Identified(Among(refs[..i]), naming), downloads)
    ensures AllDownloaded(Identified(Among(refs[..i + 1]), naming), downloads) <==> Identify(refs[i], naming).value.uuid in downloads
    ensures AllDownloaded(Identified(Among(refs), naming), downloads) ==> Identify(refs[i], naming).value.uuid in downloads
  {
    hide Identify, Among, Identified;
    IdentifiedSnoc(refs, i, naming);
    assert Identify(refs[i], naming).value in Identified(Among(refs), naming);
  }

  lemma FailedReference(refs: seq<Json>, i: nat, had: set<Identity>, naming: Naming)
    requires i < |refs|
    requires var met := had + Identified(Among(refs[..i]), naming);
             !(Identify(refs[i], naming).Ok? && Compatible(met + {Identify(refs[i], naming).value}))
    ensures !(AllIdentified(Among(refs), naming) && Compatible(had + Identified(Among(refs), naming)))
  {
    hide Identify, Conflict;
    if AllIdentified(Among(refs), naming) {
      assert refs[i] in refs;
      IdentifiedSnoc(refs, i, naming);
      assert had + Identified(Among(refs[..i]), naming) + {Identify(refs[i], naming).value}
          <= had + Identified(Among(refs), naming);
    }
  }

  /** A new identity is written to a path no other identity of the table has. */
  lemma PathIsNew(table: Table, met: set<Identity>, before: set<Identity>, identity: Identity)
    requires Holds(table, met) && Compatible(met) && met == before + {identity}
    ensures forall u | u in table && u != identity.uuid :: table[u].path != identity.path
  {
    forall u | u in table && u != identity.uuid ensures table[u].path != identity.path {
      assert !Conflict(table[u], identity);
    }
  }

  /** What one item must satisfy after the items before it. */
  ghost predicate Fits(n: int, kind: Kind, a: Answer, t: Tools, ids: set<int>, met: set<Identity>) {
    ItemFits(n, kind, a, t) && IntsAt(a.comments, "id") !! ids && Compatible(met + IdentitiesOf(kind, a, t))
  }

  lemma ShapeGivesIds(n: int, kind: Kind, a: Answer, t: Tools)
    requires ItemShape(n, kind, a, t)
    ensures UniqueInts(a.comments, "id") && LabelNames(a.detail).Some?
  {
  }

  lemma ReferencesJoin(s: seq<Json>, r: seq<Json>)
    ensures References(s + r) == References(s) + References(r)
  {
    hide Candidates;
    assert forall i | 0 <= i < |r| :: (s + r)[|s| + i] == r[i];
    assert forall i | 0 <= i < |s| :: (s + r)[i] == s[i];
  }

  lemma IdentifiedJoin(x: set<Json>, y: set<Json>, naming: Naming)
    ensures Identified(x + y, naming) == Identified(x, naming) + Identified(y, naming)
    ensures Uuids(Identified(x + y, naming)) == Uuids(Identified(x, naming)) + Uuids(Identified(y, naming))
    ensures AllIdentified(x + y, naming) <==> AllIdentified(x, naming) && AllIdentified(y, naming)
  {
    hide Identify;
  }

  lemma CompatibleParts(had: set<Identity>, x: set<Identity>, y: set<Identity>, downloads: Files)
    ensures had + x + y == had + (x + y)
    ensures Compatible(had + (x + y)) ==> Compatible(had + x)
    ensures AllDownloaded(x + y, downloads) <==> AllDownloaded(x, downloads) && AllDownloaded(y, downloads)
  {
    hide Conflict;
  }

  /** Recording the two groups of payloads of a pull request is recording all of them. */
  lemma SourcesJoin(kind: Kind, a: Answer, naming: Naming, had: set<Identity>, downloads: Files)
    ensures var x, y := Identified(References(ItemSources(a)), naming), Identified(References(PullSources(a)), naming);
            var all := if kind == Issue then x else x + y;
            && Identified(References(Sources(kind, a)), naming) == all
            && Uuids(all) == Uuids(x) + (if kind == Issue then {} else Uuids(y))
            && (kind == PullRequest ==> had + x + y == had + all)
            && (Compatible(had + all) ==> Compatible(had + x))
            && (AllDownloaded(all, downloads) <==> AllDownloaded(x, downloads) && (kind == PullRequest ==> AllDownloaded(y, downloads)))
    ensures AllIdentified(References(Sources(kind, a)), naming) <==>
              AllIdentified(References(ItemSources(a)), naming)
              && (kind == PullRequest ==> AllIdentified(References(PullSources(a)), naming))
  {
    hide References, Identified, Uuids, Compatible, AllDownloaded, AllIdentified, ItemSources, PullSources;
    assert ItemSources(a) + [] == ItemSources(a);
    if kind == PullRequest {
      ReferencesJoin(ItemSources(a), PullSources(a));
      var r, s := References(ItemSources(a)), References(PullSources(a));
      IdentifiedJoin(r, s, naming);
      CompatibleParts(had, Identified(r, naming), Identified(s, naming), downloads);
    }
  }

  /** What one pass accumulates over the items. */
  class Pass {
    const t: Tools
    var assets: Table
    var comments: Comments
    var parents: Parents
    var files: Files
    var rows: map<string, Row>
    ghost var met: set<Identity>

    ghost predicate Valid()
      reads this
    {
      Holds(assets, met) && Compatible(met) && parents.Keys == comments.Keys
    }

    constructor (t: Tools)
      ensures Valid() && this.t == t && met == {} && comments == map[] && parents == map[]
      ensures assets == map[] && files == map[] && rows == map[]
    {
      this.t := t;
      assets, comments, parents, met := map[], map[], map[], {};
      files, rows := map[], map[];
    }

    /** Every asset was written once, to its own path, and its row describes what was written. */
    ghost predicate Written(downloads: Files)
      reads this
    {
      && rows.Keys == assets.Keys
      && forall u | u in assets ::
           && u in downloads && assets[u].path in files && files[assets[u].path] == downloads[u]
           && rows[u] == RowOf(assets[u], downloads[u], t)
    }

    /** The comments of one item; fails on a repeated id and on an id stored under an earlier item. */
    method AddComments(list: seq<Json>, parent: Parent) returns (r: Result<set<int>, ExportError>)
      requires Valid()
      modifies this`comments, this`parents
      ensures Valid()
      ensures r.Ok? <==> UniqueInts(list, "id") && IntsAt(list, "id") !! old(comments.Keys)
      ensures r.Ok? ==> r.value == IntsAt(list, "id")
      ensures r.Ok? ==> comments == old(comments) + ById(list) && parents == old(parents) + ParentsOf(list, parent)
    {
      hide IntsAt, Holds, Compatible, ById, ParentsOf;
      var ids := Unique(list, "id");
      if ids.Err? {
        return ids;
      }
      if !(ids.value !! comments.Keys) {
        return Err(ExportError);
      }
      ghost var had, came := comments, parents;
      StartOfList(list, parent);
      for i := 0 to |list|
        invariant Valid()
        invariant comments == had + ById(list[..i]) && parents == came + ParentsOf(list[..i], parent)
      {
        var id := list[i].IntAt("id").value;
        CommentsSnoc(list, parent, i);
        AddThenSet(had, ById(list[..i]), id, list[i]);
        AddThenSet(came, ParentsOf(list[..i], parent), id, parent);
        comments := comments[id := list[i]];
        parents := parents[id := parent];
      }
      assert list[..|list|] == list;
      return ids;
    }

    /** One reference; tells its identity and whether it is new. */
    method AddReference(asset: Json) returns (r: Result<(Identity, bool), ExportError>)
      requires Valid()
      modifies this`assets, this`met
      ensures Valid()
      ensures r.Ok? <==> Identify(asset, t.naming).Ok? && Compatible(old(met) + {Identify(asset, t.naming).value})
      ensures r.Ok? ==> r.value.0 == Identify(asset, t.naming).value && met == old(met) + {r.value.0}
      ensures r.Ok? ==> (r.value.1 <==> r.value.0.uuid !in old(assets)) && assets == old(assets)[r.value.0.uuid := r.value.0]
      ensures r.Ok? && !r.value.1 ==> assets == old(assets)
      ensures r.Err? ==> unchanged(this)
    {
      hide Identify, Conflict;
      var identity := Identify(asset, t.naming);
      if identity.Err? {
        return Err(ExportError);
      }
      var merged := MergeIdentity(assets, identity.value, met);
      if merged.Err? {
        return Err(ExportError);
      }
      assets := merged.value.0;
      met := met + {identity.value};
      return Ok((identity.value, merged.value.1));
    }

    /** Downloads a new asset and writes it. */
    method Write(identity: Identity, downloads: Files, ghost before: set<Identity>)
      requires Valid() && met == before + {identity} && identity.uuid in downloads
      requires identity.uuid !in rows && rows.Keys + {identity.uuid} == assets.Keys && assets[identity.uuid] == identity
      requires forall u | u in rows ::
                 && u in downloads && assets[u].path in files && files[assets[u].path] == downloads[u]
                 && rows[u] == RowOf(assets[u], downloads[u], t)
      modifies this`files, this`rows
      ensures Valid() && Written(downloads)
    {
      hide RowOf, Compatible, Holds;
      PathIsNew(assets, met, before, identity);
      files := files[identity.path := downloads[identity.uuid]];
      rows := rows[identity.uuid := RowOf(identity, downloads[identity.uuid], t)];
    }

    /** `_record_assets`, over the references in the order they are met. */
    method RecordAssets(refs: seq<Json>, downloads: Files) returns (r: Result<set<string>, ExportError>)
      requires Valid() && Written(downloads)
      modifies this`assets, this`met, this`files, this`rows
      ensures Valid()
      ensures r.Ok? <==> && AllIdentified(Among(refs), t.naming) && Compatible(old(met) + Identified(Among(refs), t.naming))
                         && AllDownloaded(Identified(Among(refs), t.naming), downloads)
      ensures r.Ok? ==> Written(downloads) && met == old(met) + Identified(Among(refs), t.naming)
      ensures r.Ok? ==> r.value == Uuids(Identified(Among(refs), t.naming))
    {
      hide Identify, Compatible, Among, Identified, Uuids, AllIdentified, RowOf, AllDownloaded, Holds;
      ghost var had := met;
      var uuids: set<string> := {};
      NothingIdentified(refs, downloads, t.naming);
      for i := 0 to |refs|
        invariant Valid() && Written(downloads)
        invariant AllIdentified(Among(refs[..i]), t.naming)
        invariant met == had + Identified(Among(refs[..i]), t.naming)
        invariant AllDownloaded(Identified(Among(refs[..i]), t.naming), downloads)
        invariant uuids == Uuids(Identified(Among(refs[..i]), t.naming))
      {
        ghost var before := met;
        IdentifiedSnoc(refs, i, t.naming);
        var added := AddReference(refs[i]);
        if added.Err? {
          FailedReference(refs, i, had, t.naming);
          return Err(ExportError);
        }
        var identity := added.value.0;
        DownloadedSnoc(refs, i, downloads, t.naming);
        if added.value.1 {
          if identity.uuid !in downloads {
            return Err(ExportError);
          }
          Write(identity, downloads, before);
        }
        uuids := uuids + {identity.uuid};
        SetStep(had, Identified(Among(refs[..i]), t.naming), identity);
      }
      assert refs[..|refs|] == refs;
      return Ok(uuids);
    }

    /** The same references met again by the validation, which writes nothing. */
    method MergeAssets(refs: seq<Json>) returns (r: Result<set<string>, ExportError>)
      requires Valid()
      modifies this`assets, this`met
      ensures Valid()
      ensures r.Ok? <==> AllIdentified(Among(refs), t.naming) && Compatible(old(met) + Identified(Among(refs), t.naming))
      ensures r.Ok? ==> met == old(met) + Identified(Among(refs), t.naming)
      ensures r.Ok? ==> r.value == Uuids(Identified(Among(refs), t.naming))
    {
      hide Identify, Compatible, Among, Identified, Uuids, AllIdentified, Holds;
      ghost var had := met;
      var uuids: set<string> := {};
      NothingIdentified(refs, map[], t.naming);
      for i := 0 to |refs|
        invariant Valid()
        invariant AllIdentified(Among(refs[..i]), t.naming)
        invariant met == had + Identified(Among(refs[..i]), t.naming)
        invariant uuids == Uuids(Identified(Among(refs[..i]), t.naming))
      {
        IdentifiedSnoc(refs, i, t.naming);
        var added := AddReference(refs[i]);
        if added.Err? {
          FailedReference(refs, i, had, t.naming);
          return Err(ExportError);
        }
        uuids := uuids + {added.value.0.uuid};
        SetStep(had, Identified(Among(refs[..i]), t.naming), added.value.0);
      }
      assert refs[..|refs|] == refs;
      return Ok(uuids);
    }

    /** The payload of one item has the shape both passes demand. */
    method CheckShape(n: int, kind: Kind, a: Answer) returns (ok: bool)
      ensures ok <==> ItemShape(n, kind, a, t)
    {
      hide UniqueInts, IntsAt, LabelNames, PullMetadata;
      if a.detail.IntAt("number") != Some(n) || LabelNames(a.detail) == None {
        return false;
      }
      var ids := Unique(a.comments, "id");
      var assetIds := Unique(a.assets, "id");
      if ids.Err? || assetIds.Err? {
        return false;
      }
      if kind == PullRequest {
        if a.pull.IntAt("number") != Some(n) || a.pull.TextAt("state") != Some("closed") {
          return false;
        }
        var reviewIds := Unique(a.reviews, "id");
        return reviewIds.Ok? && t.isSha(PullMetadata(a.pull).headSha);
      }
      return true;
    }

    /** The payload of one item meets what the validation demands beyond its shape. */
    method CheckKnown(indexed: Json, kind: Kind, a: Answer) returns (ok: bool)
      ensures ok <==> ItemIsKnown(indexed, kind, a, t)
    {
      hide PullIsKnown, Identify;
      for i := 0 to |a.assets|
        invariant forall k | 0 <= k < i :: Identify(a.assets[k], t.naming).Ok?
      {
        var identity := Identify(a.assets[i], t.naming);
        if identity.Err? {
          return false;
        }
      }
      if !Equals(OrNull((if kind == Issue then a.detail else a.pull).At("id")), OrNull(indexed.At("id"))) {
        return false;
      }
      if kind == Issue {
        return a.detail.TextAt("state") == Some("open") || a.detail.TextAt("state") == Some("closed");
      }
      ok := CheckPull(a.pull, a.commits, a.files, a.reviews, a.reviewComments, a.status, a.diff, a.patch, t.isSha);
    }

    /** The payloads of an item, and for a pull request then those of the pull request. */
    method CaptureAssets(kind: Kind, a: Answer, downloads: Files, order: Json -> seq<Json>) returns (r: Result<set<string>, ExportError>)
      requires Valid() && Written(downloads) && Lists(order)
      modifies this`assets, this`met, this`files, this`rows
      ensures Valid()
      ensures r.Ok? <==> && AllIdentified(References(Sources(kind, a)), t.naming)
                         && Compatible(old(met) + IdentitiesOf(kind, a, t)) && AllDownloaded(IdentitiesOf(kind, a, t), downloads)
      ensures r.Ok? ==> Written(downloads) && met == old(met) + IdentitiesOf(kind, a, t) && r.value == Uuids(IdentitiesOf(kind, a, t))
    {
      hide Compatible, Identified, References, AllIdentified, AllDownloaded, Uuids, Holds, Lists, Among, ItemSources, PullSources,
           RowOf, Sources;
      ghost var had := met;
      SourcesJoin(kind, a, t.naming, had, downloads);
      ListedReferences(order, ItemSources(a));
      var uuids := RecordAssets(FlatMap(order, ItemSources(a)), downloads);
      if uuids.Err? || kind == Issue {
        return uuids;
      }
      ListedReferences(order, PullSources(a));
      var more := RecordAssets(FlatMap(order, PullSources(a)), downloads);
      if more.Err? {
        return more;
      }
      return Ok(uuids.value + more.value);
    }

    /** One turn of the loop of `_capture_items`. */
    method CaptureItem(n: int, kind: Kind, a: Answer, parent: Parent, downloads: Files, order: Json -> seq<Json>)
      returns (r: Result<Entry, ExportError>)
      requires Valid() && Written(downloads) && Lists(order)
      modifies this
      ensures r.Ok? <==> Fits(n, kind, a, t, old(comments.Keys), old(met)) && AllDownloaded(IdentitiesOf(kind, a, t), downloads)
      ensures r.Ok? ==> Valid() && Written(downloads) && r.value == EntryOf(n, kind, a, t)
      ensures r.Ok? ==> comments == old(comments) + ById(a.comments) && parents == old(parents) + ParentsOf(a.comments, parent)
      ensures r.Ok? ==> met == old(met) + IdentitiesOf(kind, a, t)
    {
      hide ItemShape, IntsAt, Compatible, Identified, References, AllIdentified, AllDownloaded, Uuids, ById, ParentsOf, Holds,
           Lists, Among;
      var shaped := CheckShape(n, kind, a);
      if !shaped {
        return Err(ExportError);
      }
      ShapeGivesIds(n, kind, a, t);
      var ids := AddComments(a.comments, parent);
      if ids.Err? {
        return Err(ExportError);
      }
      var uuids := CaptureAssets(kind, a, downloads, order);
      if uuids.Err? {
        return Err(ExportError);
      }
      var names := LabelNames(a.detail).value;
      if kind == Issue {
        return Ok(Entry(n, IssueEntry, OrNull(a.detail.At("state")), SortedSet(names), SortedInts(ids.value),
                        SortedSet(uuids.value), None, None));
      }
      return Ok(Entry(n, LegacyPr, JText("closed"), SortedSet(names + {"legacy-pr"}), SortedInts(ids.value),
                      SortedSet(uuids.value), Some(PullMetadata(a.pull)), None));
    }

    /** One turn of the loop of `_validate_data`, up to the expected plan entry. */
    method CheckItem(n: int, indexed: Json, kind: Kind, a: Answer, parent: Parent, order: Json -> seq<Json>)
      returns (r: Result<Entry, ExportError>)
      requires Valid() && Lists(order)
      modifies this`assets, this`met, this`comments, this`parents
      ensures r.Ok? <==> Fits(n, kind, a, t, old(comments.Keys), old(met)) && ItemIsKnown(indexed, kind, a, t)
      ensures r.Ok? ==> Valid() && r.value == EntryOf(n, kind, a, t)
      ensures r.Ok? ==> comments == old(comments) + ById(a.comments) && parents == old(parents) + ParentsOf(a.comments, parent)
      ensures r.Ok? ==> met == old(met) + IdentitiesOf(kind, a, t)
    {
      hide ItemShape, IntsAt, Compatible, Identified, References, AllIdentified, Uuids, ById, ParentsOf, Holds, Lists, Among,
           ItemIsKnown;
      var shaped := CheckShape(n, kind, a);
      var known := CheckKnown(indexed, kind, a);
      if !shaped || !known {
        return Err(ExportError);
      }
      ShapeGivesIds(n, kind, a, t);
      var ids := AddComments(a.comments, parent);
      if ids.Err? {
        return Err(ExportError);
      }
      ListedReferences(order, Sources(kind, a));
      var uuids := MergeAssets(FlatMap(order, Sources(kind, a)));
      if uuids.Err? {
        return Err(ExportError);
      }
      var names := LabelNames(a.detail).value;
      if kind == Issue {
        return Ok(Entry(n, IssueEntry, OrNull(a.detail.At("state")), SortedSet(names), SortedInts(ids.value),
                        SortedSet(uuids.value), None, None));
      }
      return Ok(Entry(n, LegacyPr, JText("closed"), SortedSet(names + {"legacy-pr"}), SortedInts(ids.value),
                      SortedSet(uuids.value), Some(PullMetadata(a.pull)), None));
    }
  }

  /** The index checks both passes start with. */
  method CheckIndex(index: Index) returns (ok: bool)
    ensures ok <==> IndexFits(index)
  {
    hide UniqueInts, IntsAt;
    var labels := Unique(index.labels, "id");
    var issueIds := Unique(index.issues, "id");
    var pullIds := Unique(index.pulls, "id");
    var comments := Unique(index.comments, "id");
    var issues := Unique(index.issues, "number");
    var pulls := Unique(index.pulls, "number");
    return labels.Ok? && issueIds.Ok? && pullIds.Ok? && comments.Ok? && issues.Ok? && pulls.Ok? && issues.value !! pulls.value;
  }

  /** `_reconcile_comment_parents`. */
  method Reconcile(shared: seq<Json>, own: Comments, parents: Parents, t: Tools) returns (ok: bool)
    ensures ok <==> Reconciled(shared, own, parents, t)
  {
    hide UniqueInts, IntsAt, Reconciles;
    var ids := Unique(shared, "id");
    if ids.Err? || ids.value != parents.Keys || ids.value != own.Keys {
      return false;
    }
    UniqueGivesInts(shared, "id");
    for i := 0 to |shared|
      invariant forall k | 0 <= k < i ::
                  var id := shared[k].IntAt("id").value;
                  id in own && id in parents && Reconciles(shared[k], own[id], parents[id], t)
    {
      var id := shared[i].IntAt("id").value;
      if !Reconciles(shared[i], own[id], parents[id], t) {
        return false;
      }
    }
    return true;
  }

  lemma UniqueGivesInts(items: seq<Json>, field: string)
    requires UniqueInts(items, field)
    ensures forall i | 0 <= i < |items| :: items[i].IntAt(field).Some? && items[i].IntAt(field).value in IntsAt(items, field)
  {
  }

  /** The numbers and the tombstone are 1 to the greatest of them. */
  method CheckNumbers(numbers: set<int>) returns (ok: bool)
    ensures ok <==> TOMBSTONE !in numbers && IsContiguous(numbers)
  {
    hide Top;
    return TOMBSTONE !in numbers && numbers + {TOMBSTONE} == UpTo(Top(numbers));
  }

  // The capture.

  ghost predicate Entered(plan: seq<Entry>, numbers: seq<int>, index: Index, answers: Answers, t: Tools) {
    |plan| == |numbers| && forall k | 0 <= k < |numbers| :: IsEntry(plan[k], numbers[k], index, answers, t)
  }

  /** The plan with the tombstone sorted in. */
  function WithTombstone(plan: seq<Entry>): seq<Entry> {
    if plan == [] then [TombstoneEntryOf()]
    else if TOMBSTONE < plan[0].number then [TombstoneEntryOf()] + plan
    else [plan[0]] + WithTombstone(plan[1..])
  }

  ghost predicate Ascends(plan: seq<Entry>) {
    forall i, j | 0 <= i < j < |plan| :: plan[i].number < plan[j].number
  }

  lemma {:induction false} TombstoneIsPlaced(plan: seq<Entry>)
    requires Ascends(plan) && forall e | e in plan :: e.number != TOMBSTONE
    ensures Ascends(WithTombstone(plan))
    ensures forall e :: e in WithTombstone(plan) <==> e in plan || e == TombstoneEntryOf()
  {
    if plan != [] && plan[0].number < TOMBSTONE {
      var rest := plan[1..];
      assert plan == [plan[0]] + rest;
      TombstoneIsPlaced(rest);
      var r := WithTombstone(rest);
      forall j | 0 <= j < |r| ensures plan[0].number < r[j].number {
        assert r[j] in r;
      }
    } else if plan != [] {
      assert plan[0] in plan;
    }
  }

  function EntryNumbers(plan: seq<Entry>): seq<int> {
    seq(|plan|, i requires 0 <= i < |plan| => plan[i].number)
  }

  lemma EntryNumber(e: Entry, n: int, index: Index, answers: Answers, t: Tools)
    requires IsEntry(e, n, index, answers, t)
    ensures e.number == n && n in index.Numbers()
  {
    hide LabelNames, IdentitiesOf;
  }

  lemma EntriesOfNumbers(plan: seq<Entry>, index: Index, answers: Answers, t: Tools)
    requires Entered(plan, SortedInts(index.Numbers()), index, answers, t)
    ensures Ascends(plan)
    ensures forall e | e in plan :: e.number in index.Numbers() && IsEntry(e, e.number, index, answers, t)
    ensures forall n | n in index.Numbers() :: exists e :: e in plan && e.number == n
  {
    hide IsEntry;
    var numbers := SortedInts(index.Numbers());
    forall k | 0 <= k < |plan| ensures plan[k].number == numbers[k] {
      EntryNumber(plan[k], numbers[k], index, answers, t);
    }
    forall n | n in index.Numbers() ensures exists e :: e in plan && e.number == n {
      var k :| 0 <= k < |numbers| && numbers[k] == n;
      assert plan[k] in plan;
    }
  }

  lemma WholeNumbers(plan: seq<Entry>, numbers: set<int>)
    requires forall e | e in plan :: e.number in numbers
    requires forall n | n in numbers :: exists e :: e in plan && e.number == n
    ensures forall n :: n in EntryNumbers(plan) <==> n in numbers
  {
    var all := EntryNumbers(plan);
    forall n | n in numbers ensures n in all {
      var e :| e in plan && e.number == n;
      var i :| 0 <= i < |plan| && plan[i] == e;
      assert all[i] == n;
    }
    forall n | n in all ensures n in numbers {
      var i :| 0 <= i < |all| && all[i] == n;
      assert plan[i] in plan;
    }
  }

  lemma PlanIsNumbered(r: seq<Entry>, numbers: set<int>)
    requires Ascends(r) && IsContiguous(numbers)
    requires forall n :: n in EntryNumbers(r) <==> n in numbers + {TOMBSTONE}
    ensures |r| == Top(numbers) && forall i | 0 <= i < |r| :: r[i].number == i + 1
  {
    hide Top, SortedInts;
    assert TOMBSTONE in numbers + {TOMBSTONE};
    var all := EntryNumbers(r);
    AscendingRange(all, Top(numbers));
    assert forall i | 0 <= i < |r| :: all[i] == r[i].number;
  }

  lemma PlanHasAllNumbers(plan: seq<Entry>, numbers: set<int>)
    requires Ascends(plan) && TOMBSTONE !in numbers
    requires forall e | e in plan :: e.number in numbers
    requires forall n | n in numbers :: exists e :: e in plan && e.number == n
    ensures forall n :: n in EntryNumbers(WithTombstone(plan)) <==> n in numbers + {TOMBSTONE}
  {
    hide WithTombstone, EntryNumbers;
    TombstoneIsPlaced(plan);
    var r := WithTombstone(plan);
    assert TombstoneEntryOf() in r;
    forall n | n in numbers ensures exists e :: e in r && e.number == n {
      var e :| e in plan && e.number == n;
      assert e in r;
    }
    WholeNumbers(r, numbers + {TOMBSTONE});
  }

  /** Sorting the tombstone in gives the plan. */
  lemma PlanIsWhole(plan: seq<Entry>, index: Index, answers: Answers, t: Tools)
    requires TOMBSTONE !in index.Numbers() && IsContiguous(index.Numbers())
    requires Entered(plan, SortedInts(index.Numbers()), index, answers, t)
    ensures IsPlan(WithTombstone(plan), index, answers, t)
  {
    hide *;
    EntriesOfNumbers(plan, index, answers, t);
    TombstoneNumber(plan, index.Numbers());
    TombstoneIsPlaced(plan);
    PlanHasAllNumbers(plan, index.Numbers());
    PlanIsNumbered(WithTombstone(plan), index.Numbers());
    NumberedIsPlan(WithTombstone(plan), plan, index, answers, t);
  }

  lemma TombstoneNumber(plan: seq<Entry>, numbers: set<int>)
    requires TOMBSTONE !in numbers && forall e | e in plan :: e.number in numbers
    ensures forall e | e in plan :: e.number != TOMBSTONE
  {
  }

  lemma NumberedIsPlan(r: seq<Entry>, plan: seq<Entry>, index: Index, answers: Answers, t: Tools)
    requires TOMBSTONE !in index.Numbers() && |r| == Top(index.Numbers()) && forall i | 0 <= i < |r| :: r[i].number == i + 1
    requires forall e :: e in r <==> e in plan || e == TombstoneEntryOf()
    requires forall e | e in plan :: e.number in index.Numbers() && IsEntry(e, e.number, index, answers, t)
    ensures IsPlan(r, index, answers, t)
  {
    hide IsEntry, Top, IntsAt;
    forall i | 0 <= i < |r|
      ensures if i + 1 == TOMBSTONE then r[i] == TombstoneEntryOf() else IsEntry(r[i], i + 1, index, answers, t)
    {
      assert r[i] in r;
    }
  }

  /** The state of a pass is what the numbers read so far give. */
  ghost predicate Tracks(pass: Pass, numbers: seq<int>, index: Index, answers: Answers, t: Tools)
    reads pass
  {
    && FitUpTo(numbers, index, answers, t)
    && pass.comments == AllComments(numbers, answers) && pass.parents == AllParents(numbers, index, answers, t)
    && pass.met == AllIdentities(numbers, index, answers, t)
  }

  lemma NextIsFit(numbers: seq<int>, n: int, index: Index, answers: Answers, t: Tools)
    requires FitUpTo(numbers, index, answers, t) && n in answers
    ensures Fits(n, index.Kind(n), answers[n], t, AllComments(numbers, answers).Keys, AllIdentities(numbers, index, answers, t))
            <==> FitUpTo(numbers + [n], index, answers, t)
  {
    hide ItemFits, AllComments, AllIdentities, IdentitiesOf, Compatible, IntsAt, FitUpTo;
    FitSnoc(numbers, n, index, answers, t);
  }

  lemma TrackNext(numbers: seq<int>, n: int, index: Index, answers: Answers, t: Tools)
    requires FitUpTo(numbers + [n], index, answers, t) && FitUpTo(numbers, index, answers, t)
    ensures n in answers
    ensures AllComments(numbers + [n], answers) == AllComments(numbers, answers) + ById(answers[n].comments)
    ensures AllParents(numbers + [n], index, answers, t)
            == AllParents(numbers, index, answers, t) + ParentsOf(answers[n].comments, ParentOf(n, index, t))
    ensures AllIdentities(numbers + [n], index, answers, t)
            == AllIdentities(numbers, index, answers, t) + IdentitiesOf(index.Kind(n), answers[n], t)
  {
    hide ItemFits, IdentitiesOf, Compatible, ApartUpTo, IntsAt, ById, ParentsOf;
    assert n in numbers + [n];
    IdentitiesSnoc(numbers, n, index, answers, t);
    assert (numbers + [n])[..|numbers + [n]| - 1] == numbers;
  }

  lemma EnterNext(plan: seq<Entry>, numbers: seq<int>, e: Entry, n: int, index: Index, answers: Answers, t: Tools)
    requires Entered(plan, numbers, index, answers, t) && IsEntry(e, n, index, answers, t)
    ensures Entered(plan + [e], numbers + [n], index, answers, t)
  {
    hide IsEntry;
  }

  lemma FitItemIsEntry(n: int, index: Index, answers: Answers, t: Tools, e: Entry)
    requires n in index.Numbers() && n in answers && ItemFits(n, index.Kind(n), answers[n], t)
    requires e == EntryOf(n, index.Kind(n), answers[n], t)
    ensures IsEntry(e, n, index, answers, t)
  {
  }

  ghost predicate DownloadedUpTo(numbers: seq<int>, index: Index, answers: Answers, downloads: Files, t: Tools)
    requires forall n | n in numbers :: n in answers
  {
    AllDownloaded(AllIdentities(numbers, index, answers, t), downloads)
  }

  lemma DownloadNext(numbers: seq<int>, n: int, index: Index, answers: Answers, downloads: Files, t: Tools)
    requires forall m | m in numbers + [n] :: m in answers
    ensures n in answers && forall m | m in numbers :: m in answers
    ensures DownloadedUpTo(numbers + [n], index, answers, downloads, t) <==>
            && DownloadedUpTo(numbers, index, answers, downloads, t)
            && AllDownloaded(IdentitiesOf(index.Kind(n), answers[n], t), downloads)
  {
    hide IdentitiesOf, AllIdentities;
    IdentitiesSnoc(numbers, n, index, answers, t);
  }

  lemma DownloadPrefix(numbers: seq<int>, i: nat, index: Index, answers: Answers, downloads: Files, t: Tools)
    requires i <= |numbers| && (forall m | m in numbers :: m in answers) && DownloadedUpTo(numbers, index, answers, downloads, t)
    ensures (forall m | m in numbers[..i] :: m in answers) && DownloadedUpTo(numbers[..i], index, answers, downloads, t)
  {
    hide IdentitiesOf;
    assert forall m | m in numbers[..i] :: m in numbers;
    assert AllIdentities(numbers[..i], index, answers, t) <= AllIdentities(numbers, index, answers, t);
  }

  /** Nothing after a failed item repairs the failure. */
  lemma StopsHere(numbers: seq<int>, i: nat, index: Index, answers: Answers, downloads: Files, t: Tools)
    requires i < |numbers| && FitUpTo(numbers, index, answers, t) && DownloadedUpTo(numbers, index, answers, downloads, t)
    ensures numbers[i] in answers && FitUpTo(numbers[..i] + [numbers[i]], index, answers, t)
    ensures DownloadedUpTo(numbers[..i] + [numbers[i]], index, answers, downloads, t)
  {
    hide FitUpTo, DownloadedUpTo;
    assert numbers[..i + 1] == numbers[..i] + [numbers[i]];
    FitPrefix(numbers, i + 1, index, answers, t);
    FitAreAnswered(numbers, index, answers, t);
    DownloadPrefix(numbers, i + 1, index, answers, downloads, t);
  }

  lemma FitAreAnswered(numbers: seq<int>, index: Index, answers: Answers, t: Tools)
    requires FitUpTo(numbers, index, answers, t)
    ensures forall n | n in numbers :: n in answers && ItemFits(n, index.Kind(n), answers[n], t)
  {
    hide ItemFits, ApartUpTo, Compatible;
  }

  /** What the capture has done once it has read `numbers`. */
  ghost predicate Captured(pass: Pass, plan: seq<Entry>, numbers: seq<int>, index: Index, remote: Answers, downloads: Files)
    reads pass
  {
    && pass.Valid() && pass.Written(downloads) && Tracks(pass, numbers, index, remote, pass.t)
    && (forall n | n in numbers :: n in remote) && DownloadedUpTo(numbers, index, remote, downloads, pass.t)
    && Entered(plan, numbers, index, remote, pass.t)
  }

  /** All items fit and all their assets were downloaded. */
  ghost predicate CanCapture(numbers: seq<int>, index: Index, remote: Answers, downloads: Files, t: Tools) {
    FitUpTo(numbers, index, remote, t) && DownloadedUpTo(numbers, index, remote, downloads, t)
  }

  lemma CannotCapture(numbers: seq<int>, i: nat, index: Index, remote: Answers, downloads: Files, t: Tools)
    requires i < |numbers| && CanCapture(numbers, index, remote, downloads, t)
    ensures numbers[i] in remote && CanCapture(numbers[..i] + [numbers[i]], index, remote, downloads, t)
  {
    hide FitUpTo, DownloadedUpTo;
    StopsHere(numbers, i, index, remote, downloads, t);
  }

  /** One more number of the loop of `_capture_items`. */
  method CaptureNext(pass: Pass, plan: seq<Entry>, ghost had: seq<int>, n: int, index: Index, a: Answer, downloads: Files,
                     order: Json -> seq<Json>, ghost remote: Answers)
    returns (r: Result<Entry, ExportError>)
    requires Lists(order) && n in index.Numbers() && n in remote && remote[n] == a
    requires Captured(pass, plan, had, index, remote, downloads)
    modifies pass
    ensures r.Ok? <==> CanCapture(had + [n], index, remote, downloads, pass.t)
    ensures r.Ok? ==> Captured(pass, plan + [r.value], had + [n], index, remote, downloads)
  {
    hide FitUpTo, DownloadedUpTo, Fits, AllComments, AllParents, AllIdentities, IdentitiesOf, IsEntry, Entered, EntryOf, Lists,
         ById, ParentsOf, AllDownloaded, ItemFits, Pass.Valid, Pass.Written;
    NextIsFit(had, n, index, remote, pass.t);
    DownloadNext(had, n, index, remote, downloads, pass.t);
    r := pass.CaptureItem(n, index.Kind(n), a, ParentOf(n, index, pass.t), downloads, order);
    if r.Ok? {
      TrackNext(had, n, index, remote, pass.t);
      FitAreAnswered(had + [n], index, remote, pass.t);
      FitItemIsEntry(n, index, remote, pass.t, r.value);
      EnterNext(plan, had, r.value, n, index, remote, pass.t);
    }
  }

  /** The loop of `_capture_items`. */
  method CaptureAll(numbers: seq<int>, index: Index, remote: Answers, downloads: Files, t: Tools, order: Json -> seq<Json>)
    returns (r: Result<(Pass, seq<Entry>), ExportError>)
    requires Lists(order) && forall n | n in numbers :: n in index.Numbers()
    ensures r.Ok? <==> CanCapture(numbers, index, remote, downloads, t)
    ensures r.Ok? ==> fresh(r.value.0) && r.value.0.t == t && Captured(r.value.0, r.value.1, numbers, index, remote, downloads)
  {
    hide CanCapture, Captured, Lists, IntsAt;
    var pass := new Pass(t);
    var plan: seq<Entry> := [];
    NothingYet(pass, index, remote, downloads);
    assert numbers[..0] == [];
    for i := 0 to |numbers|
      invariant fresh(pass) && pass.t == t
      invariant Captured(pass, plan, numbers[..i], index, remote, downloads)
      invariant CanCapture(numbers[..i], index, remote, downloads, t)
    {
      var n := numbers[i];
      assert numbers[..i + 1] == numbers[..i] + [n];
      if CanCapture(numbers, index, remote, downloads, t) {
        CannotCapture(numbers, i, index, remote, downloads, t);
      }
      if n !in remote {
        return Err(ExportError);
      }
      var entry := CaptureNext(pass, plan, numbers[..i], n, index, remote[n], downloads, order, remote);
      if entry.Err? {
        return Err(ExportError);
      }
      plan := plan + [entry.value];
    }
    assert numbers[..|numbers|] == numbers;
    return Ok((pass, plan));
  }

  lemma NothingYet(pass: Pass, index: Index, remote: Answers, downloads: Files)
    requires pass.Valid() && pass.met == {} && pass.comments == map[] && pass.parents == map[] && pass.assets == map[]
    requires pass.rows == map[]
    ensures Captured(pass, [], [], index, remote, downloads) && CanCapture([], index, remote, downloads, pass.t)
  {
  }

  lemma CapturableIff(index: Index, remote: Answers, downloads: Files, t: Tools)
    requires IndexFits(index)
    ensures Capturable(index, remote, downloads, t) <==>
            var numbers := SortedInts(index.Numbers());
            && CanCapture(numbers, index, remote, downloads, t)
            && Reconciled(index.comments, AllComments(numbers, remote), AllParents(numbers, index, remote, t), t)
            && TOMBSTONE !in index.Numbers() && IsContiguous(index.Numbers()) && index.Numbers() != {}
  {
    hide FitUpTo, AllIdentities, AllComments, AllParents, Reconciled, IsContiguous, Compatible, IndexFits, IntsAt, ItemFits;
    FitIsAgreement(index, remote, t);
    if FitUpTo(SortedInts(index.Numbers()), index, remote, t) {
      FitAreAnswered(SortedInts(index.Numbers()), index, remote, t);
    }
  }

  lemma RowsAreMapping(pass: Pass, downloads: Files, mapping: seq<Row>)
    requires pass.Valid() && pass.Written(downloads)
    requires var uuids := SortedSet(pass.rows.Keys); |mapping| == |uuids| && forall i | 0 <= i < |uuids| :: mapping[i] == pass.rows[uuids[i]]
    ensures forall u | u in pass.assets :: pass.assets[u].path in pass.files
    ensures mapping == Mapping(pass.assets, pass.files, pass.t)
  {
    hide RowOf, Holds, Compatible;
  }

  /** `sorted(assets.values(), key=uuid)`. */
  method ListRows(pass: Pass, ghost downloads: Files) returns (mapping: seq<Row>)
    requires pass.Valid() && pass.Written(downloads)
    ensures forall u | u in pass.assets :: pass.assets[u].path in pass.files
    ensures mapping == Mapping(pass.assets, pass.files, pass.t)
  {
    hide *;
    var rows := pass.rows;
    var uuids := SortedSet(rows.Keys);
    mapping := seq(|uuids|, i requires 0 <= i < |uuids| => rows[uuids[i]]);
    RowsAreMapping(pass, downloads, mapping);
  }

  lemma CaptureIsRecorded(pass: Pass, plan: seq<Entry>, index: Index, remote: Answers, downloads: Files, mapping: seq<Row>)
    requires Capturable(index, remote, downloads, pass.t)
    requires Captured(pass, plan, SortedInts(index.Numbers()), index, remote, downloads)
    requires (forall u | u in pass.assets :: pass.assets[u].path in pass.files) && mapping == Mapping(pass.assets, pass.files, pass.t)
    ensures IsCapture(Snapshot(index, remote, pass.files, WithTombstone(plan), mapping), index, remote, downloads, pass.t)
  {
    hide FitUpTo, AllIdentities, AllComments, AllParents, Reconciled, Compatible, IndexFits, IntsAt, ItemFits, Entered, IsPlan,
         Mapping, WithTombstone, Top, DownloadedUpTo;
    PlanIsWhole(plan, index, remote, pass.t);
    assert Holds(pass.assets, AllIdentities(SortedInts(index.Numbers()), index, remote, pass.t));
    assert IsMapping(mapping, pass.files, index, remote, pass.t);
  }

  /** `_capture_items`. */
  method CaptureItems(index: Index, remote: Answers, downloads: Files, t: Tools, order: Json -> seq<Json>)
    returns (r: Result<Snapshot, ExportError>)
    requires Lists(order) && IndexFits(index) && forall n | n in remote :: n in index.Numbers()
    ensures r.Ok? <==> Capturable(index, remote, downloads, t)
    ensures r.Ok? ==> IsCapture(r.value, index, remote, downloads, t)
  {
    hide FitUpTo, CanCapture, Captured, Reconciled, AllComments, AllParents, IsCapture, Lists, IndexFits, IntsAt, IsContiguous, Capturable,
         Mapping, Pass.Valid, Pass.Written, WithTombstone;
    var numbers := SortedInts(index.Numbers());
    CapturableIff(index, remote, downloads, t);
    var all := CaptureAll(numbers, index, remote, downloads, t, order);
    if all.Err? {
      return Err(ExportError);
    }
    var pass, plan := all.value.0, all.value.1;
    CapturedTracks(pass, plan, numbers, index, remote, downloads);
    var reconciled := Reconcile(index.comments, pass.comments, pass.parents, t);
    var numbered := CheckNumbers(index.Numbers());
    if !reconciled || !numbered || index.Numbers() == {} {
      return Err(ExportError);
    }
    var mapping := ListRows(pass, downloads);
    CaptureIsRecorded(pass, plan, index, remote, downloads, mapping);
    return Ok(Snapshot(index, remote, pass.files, WithTombstone(plan), mapping));
  }

  lemma CapturedTracks(pass: Pass, plan: seq<Entry>, numbers: seq<int>, index: Index, remote: Answers, downloads: Files)
    requires Captured(pass, plan, numbers, index, remote, downloads)
    ensures pass.Valid() && pass.Written(downloads) && forall n | n in numbers :: n in remote
    ensures pass.comments == AllComments(numbers, remote) && pass.parents == AllParents(numbers, index, remote, pass.t)
  {
  }

  // The validation.

  ghost predicate PlanHas(plan: seq<Entry>, n: int, index: Index, answers: Answers, t: Tools) {
    1 <= n <= |plan| && IsEntry(plan[n - 1], n, index, answers, t)
  }

  /** What the loop of the validation has established for `numbers`. */
  ghost predicate Checked(numbers: seq<int>, s: Snapshot, t: Tools) {
    && FitUpTo(numbers, s.index, s.answers, t)
    && forall n | n in numbers :: n in s.answers && ItemIsKnown(s.index.Item(n), s.index.Kind(n), s.answers[n], t) && PlanHas(s.plan, n, s.index, s.answers, t)
  }

  lemma CheckedPrefix(numbers: seq<int>, i: nat, s: Snapshot, t: Tools)
    requires i <= |numbers| && Checked(numbers, s, t)
    ensures Checked(numbers[..i], s, t)
  {
    hide FitUpTo, ItemIsKnown, PlanHas;
    FitPrefix(numbers, i, s.index, s.answers, t);
    assert forall n | n in numbers[..i] :: n in numbers;
  }

  lemma CheckedSnoc(had: seq<int>, n: int, s: Snapshot, t: Tools)
    requires Checked(had, s, t)
    ensures Checked(had + [n], s, t) <==>
            && FitUpTo(had + [n], s.index, s.answers, t) && n in s.answers
            && ItemIsKnown(s.index.Item(n), s.index.Kind(n), s.answers[n], t) && PlanHas(s.plan, n, s.index, s.answers, t)
  {
    hide FitUpTo, ItemIsKnown, PlanHas;
    assert n in had + [n];
  }

  ghost predicate Follows(pass: Pass, numbers: seq<int>, s: Snapshot)
    reads pass
  {
    pass.Valid() && Tracks(pass, numbers, s.index, s.answers, pass.t)
  }

  /** One more number of the loop of `_validate_data`. */
  method CheckNext(pass: Pass, ghost had: seq<int>, n: int, s: Snapshot, order: Json -> seq<Json>) returns (ok: bool)
    requires Lists(order) && n in s.index.Numbers() && Follows(pass, had, s) && Checked(had, s, pass.t)
    modifies pass
    ensures ok <==> Checked(had + [n], s, pass.t)
    ensures ok ==> Follows(pass, had + [n], s)
  {
    hide FitUpTo, Checked, Fits, AllComments, AllParents, AllIdentities, IdentitiesOf, EntryOf, Lists, ById, ParentsOf, ItemFits,
         Pass.Valid, ItemIsKnown, IntsAt, LabelNames;
    CheckedSnoc(had, n, s, pass.t);
    if n !in s.answers {
      return false;
    }
    CheckedFits(had, s, pass.t);
    NextIsFit(had, n, s.index, s.answers, pass.t);
    var entry := pass.CheckItem(n, s.index.Item(n), s.index.Kind(n), s.answers[n], ParentOf(n, s.index, pass.t), order);
    if entry.Err? {
      return false;
    }
    TrackNext(had, n, s.index, s.answers, pass.t);
    FitAreAnswered(had + [n], s.index, s.answers, pass.t);
    FitItemIsEntry(n, s.index, s.answers, pass.t, entry.value);
    return 1 <= n <= |s.plan| && s.plan[n - 1] == entry.value;
  }

  lemma CheckedFits(numbers: seq<int>, s: Snapshot, t: Tools)
    requires Checked(numbers, s, t)
    ensures FitUpTo(numbers, s.index, s.answers, t)
  {
  }

  lemma NothingChecked(pass: Pass, s: Snapshot)
    requires pass.Valid() && pass.met == {} && pass.comments == map[] && pass.parents == map[]
    ensures Follows(pass, [], s) && Checked([], s, pass.t)
  {
  }

  /** The loop of `_validate_data`. */
  method CheckAll(numbers: seq<int>, s: Snapshot, t: Tools, order: Json -> seq<Json>) returns (ok: bool, pass: Pass)
    requires Lists(order) && forall n | n in numbers :: n in s.index.Numbers()
    ensures ok <==> Checked(numbers, s, t)
    ensures ok ==> pass.t == t && Follows(pass, numbers, s)
  {
    hide Checked, Follows, Lists, IntsAt;
    pass := new Pass(t);
    NothingChecked(pass, s);
    assert numbers[..0] == [];
    for i := 0 to |numbers|
      invariant fresh(pass) && pass.t == t && Follows(pass, numbers[..i], s) && Checked(numbers[..i], s, t)
    {
      assert numbers[..i + 1] == numbers[..i] + [numbers[i]];
      if Checked(numbers, s, t) {
        CheckedPrefix(numbers, i + 1, s, t);
      }
      ok := CheckNext(pass, numbers[..i], numbers[i], s, order);
      if !ok {
        return;
      }
    }
    assert numbers[..|numbers|] == numbers;
    ok := true;
  }

  /** The plan is numbered from 1 to the greatest number, and holds the tombstone at its place. */
  predicate IsNumbered(plan: seq<Entry>, numbers: set<int>) {
    && |plan| == Top(numbers) && (forall i | 0 <= i < |plan| :: plan[i].number == i + 1)
    && |plan| >= TOMBSTONE && plan[TOMBSTONE - 1] == TombstoneEntryOf()
  }

  /** `_validate_data` accepts in the order of its checks exactly what is valid. */
  lemma ValidIff(s: Snapshot, t: Tools)
    requires IndexFits(s.index) && TOMBSTONE !in s.index.Numbers() && IsContiguous(s.index.Numbers())
    ensures IsValid(s, t) <==>
            var numbers := SortedInts(s.index.Numbers());
            && IsNumbered(s.plan, s.index.Numbers()) && Checked(numbers, s, t)
            && Reconciled(s.index.comments, AllComments(numbers, s.answers), AllParents(numbers, s.index, s.answers, t), t)
            && IsMapping(s.mapping, s.files, s.index, s.answers, t)
  {
    hide FitUpTo, AllIdentities, AllComments, AllParents, Reconciled, IsContiguous, Compatible, IndexFits, IntsAt, IsMapping,
         ItemIsKnown, IsEntry, Top, IsPlan, IsNumbered, ItemFits, CommentsAreApart;
    FitIsAgreement(s.index, s.answers, t);
    if ItemsFit(s.index, s.answers, t) {
      PlanIff(s, t);
    }
  }

  lemma PlanIff(s: Snapshot, t: Tools)
    requires TOMBSTONE !in s.index.Numbers() && IsContiguous(s.index.Numbers())
    ensures IsPlan(s.plan, s.index, s.answers, t) <==>
            && IsNumbered(s.plan, s.index.Numbers())
            && forall n | n in SortedInts(s.index.Numbers()) :: PlanHas(s.plan, n, s.index, s.answers, t)
  {
    hide IsPlan, IsNumbered, PlanHas, IntsAt, IsContiguous;
    if IsPlan(s.plan, s.index, s.answers, t) {
      PlanIsChecked(s, t);
    }
    if IsNumbered(s.plan, s.index.Numbers()) && forall n | n in SortedInts(s.index.Numbers()) :: PlanHas(s.plan, n, s.index, s.answers, t) {
      CheckedIsPlan(s, t);
    }
  }

  lemma PlanIsChecked(s: Snapshot, t: Tools)
    requires IsContiguous(s.index.Numbers()) && TOMBSTONE !in s.index.Numbers() && IsPlan(s.plan, s.index, s.answers, t)
    ensures IsNumbered(s.plan, s.index.Numbers())
    ensures forall n | n in s.index.Numbers() :: PlanHas(s.plan, n, s.index, s.answers, t)
  {
    hide IsEntry, Top, IntsAt;
    var numbers := s.index.Numbers();
    assert TOMBSTONE in numbers + {TOMBSTONE};
    forall i | 0 <= i < |s.plan| ensures s.plan[i].number == i + 1 {
      if i + 1 != TOMBSTONE {
        EntryNumber(s.plan[i], i + 1, s.index, s.answers, t);
      }
    }
    forall n | n in numbers ensures PlanHas(s.plan, n, s.index, s.answers, t) {
      assert n in numbers + {TOMBSTONE};
    }
  }

  lemma CheckedIsPlan(s: Snapshot, t: Tools)
    requires IsContiguous(s.index.Numbers()) && IsNumbered(s.plan, s.index.Numbers())
    requires forall n | n in s.index.Numbers() :: PlanHas(s.plan, n, s.index, s.answers, t)
    ensures IsPlan(s.plan, s.index, s.answers, t)
  {
    hide IsEntry, Top, IntsAt;
    var numbers := s.index.Numbers();
    forall i | 0 <= i < |s.plan| && i + 1 != TOMBSTONE ensures IsEntry(s.plan[i], i + 1, s.index, s.answers, t) {
      assert i + 1 in numbers + {TOMBSTONE};
      assert PlanHas(s.plan, i + 1, s.index, s.answers, t);
    }
  }

  /** The asset rows derived again, from the files on disk; fails when a file is missing. */
  method CheckMapping(s: Snapshot, table: Table, t: Tools, ghost met: set<Identity>) returns (ok: bool)
    requires Holds(table, met)
    ensures ok <==> exists u: Table :: Holds(u, met) && (forall k | k in u :: u[k].path in s.files) && s.mapping == Mapping(u, s.files, t)
  {
    hide Mapping;
    ok := (forall u | u in table :: table[u].path in s.files) && s.mapping == Mapping(table, s.files, t);
    if u: Table :| Holds(u, met) && (forall k | k in u :: u[k].path in s.files) && s.mapping == Mapping(u, s.files, t) {
      HoldsOneTable(table, u, met);
    }
  }

  lemma FollowsTracks(pass: Pass, numbers: seq<int>, s: Snapshot)
    requires Follows(pass, numbers, s)
    ensures Holds(pass.assets, pass.met) && forall n | n in numbers :: n in s.answers
    ensures pass.comments == AllComments(numbers, s.answers) && pass.parents == AllParents(numbers, s.index, s.answers, pass.t)
    ensures pass.met == AllIdentities(numbers, s.index, s.answers, pass.t)
  {
  }

  lemma InvalidEarly(s: Snapshot, t: Tools)
    requires IsValid(s, t)
    ensures IndexFits(s.index) && TOMBSTONE !in s.index.Numbers() && IsContiguous(s.index.Numbers())
  {
  }

  /** The index, item, plan, comment and asset checks of `_validate_data`, over references met in another
      order. */
  method ValidateData(s: Snapshot, t: Tools, order: Json -> seq<Json>) returns (ok: bool)
    requires Lists(order)
    ensures ok <==> IsValid(s, t)
  {
    hide *;
    var indexed := CheckIndex(s.index);
    var numbered := CheckNumbers(s.index.Numbers());
    if IsValid(s, t) {
      InvalidEarly(s, t);
    }
    if !indexed || !numbered {
      return false;
    }
    ValidIff(s, t);
    if !IsNumbered(s.plan, s.index.Numbers()) {
      return false;
    }
    var numbers := SortedInts(s.index.Numbers());
    var checked, pass := CheckAll(numbers, s, t, order);
    if !checked {
      return false;
    }
    FollowsTracks(pass, numbers, s);
    var reconciled := Reconcile(s.index.comments, pass.comments, pass.parents, t);
    if !reconciled {
      return false;
    }
    ok := CheckMapping(s, pass.assets, t, pass.met);
    CheckedFits(numbers, s, t);
    FitIsAgreement(s.index, s.answers, t);
    MappingIff(s, t, pass.met);
  }

  lemma MappingIff(s: Snapshot, t: Tools, met: set<Identity>)
    requires ItemsFit(s.index, s.answers, t) && met == AllIdentities(SortedInts(s.index.Numbers()), s.index, s.answers, t)
    ensures IsMapping(s.mapping, s.files, s.index, s.answers, t) <==>
            exists u: Table :: Holds(u, met) && (forall k | k in u :: u[k].path in s.files) && s.mapping == Mapping(u, s.files, t)
  {
    hide Mapping, AllIdentities;
  }

  /** The capture and the validation agree whatever orders they meet the references in: what one writes
      the other accepts exactly when every item is known. */
  method CaptureThenValidate(index: Index, remote: Answers, downloads: Files, t: Tools, order: Json -> seq<Json>,
                             later: Json -> seq<Json>) returns (captured: bool, valid: bool)
    requires Lists(order) && Lists(later) && IndexFits(index) && forall n | n in remote :: n in index.Numbers()
    ensures captured <==> Capturable(index, remote, downloads, t)
    ensures captured ==> (valid <==> AllKnown(index, remote, t))
  {
    hide *;
    var r := CaptureItems(index, remote, downloads, t, order);
    if r.Err? {
      return false, false;
    }
    CaptureIsValidIff(r.value, index, remote, downloads, t);
    valid := ValidateData(r.value, t, later);
    captured := true;
  }
}
