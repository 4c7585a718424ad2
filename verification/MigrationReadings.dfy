/** What a captured snapshot says about the payloads of the source: its plan entries, its asset rows and
    its comments, read off the payloads alone. */
module MigrationReadings {
  import opened JsonValues
  import opened Wrappers
  import opened Numbers
  import opened Ordering
  import opened Pagination
  import opened MigrationAssets
  import opened MigrationChecks
  import opened MigrationCapture

  // References.

  /** `part` is found in the payload by descending through its objects and lists. */
  ghost predicate Inside(part: Json, v: Json)
    decreases v
  {
    || part == v
    || (v.JObject? && exists k | k in v.fields :: Inside(part, v.fields[k]))
    || (v.JList? && exists i | 0 <= i < |v.items| :: Inside(part, v.items[i]))
  }

  predicate IsReference(v: Json) {
    v.JObject? && "uuid" in v.fields && "browser_download_url" in v.fields
  }

  /** The references of a payload are the objects in it, at any depth, that have a uuid and a URL. */
  lemma {:induction false} CandidatesIff(v: Json, part: Json)
    ensures part in Candidates(v) <==> IsReference(part) && Inside(part, v)
    decreases v
  {
    match v
    case JObject(fields) =>
      forall k | k in fields ensures part in Candidates(fields[k]) <==> IsReference(part) && Inside(part, fields[k]) {
        CandidatesIff(fields[k], part);
      }
    case JList(items) =>
      forall i | 0 <= i < |items| ensures part in Candidates(items[i]) <==> IsReference(part) && Inside(part, items[i]) {
        CandidatesIff(items[i], part);
      }
    case _ =>
  }

  /** The identity a reference states. */
  ghost predicate States(asset: Json, x: Identity, naming: Naming) {
    && asset.JObject?
    && x.id >= 1 && asset.At("id") == Some(JInt(x.id))
    && naming.isCanonical(x.uuid) && asset.At("uuid") == Some(JText(x.uuid))
    && (exists url :: url != "" && asset.At("browser_download_url") == Some(JText(url)) && naming.sourceUrl(url) == Some(x.sourceUrl))
    && (if NamesFile(asset) then asset.At("name") == Some(JText(x.name)) else x.name == "attachment")
    && (exists file :: naming.fileName(x.name) == Some(file) && x.path == "assets/" + x.uuid + "/" + file)
  }

  predicate NamesFile(asset: Json) {
    asset.At("name").Some? && asset.At("name").value.JText? && asset.At("name").value.text != ""
  }

  lemma IdentifyIff(asset: Json, x: Identity, naming: Naming)
    ensures Identify(asset, naming) == Ok(x) <==> States(asset, x, naming)
  {
    if Identify(asset, naming) == Ok(x) {
      assert asset.At("browser_download_url") == Some(JText(asset.TextAt("browser_download_url").value));
    }
  }

  /** The answers in which references are looked for: of an issue its own, of a pull request also the others. */
  ghost predicate IsSource(v: Json, kind: Kind, a: Answer) {
    || v == a.detail || v == JList(a.comments) || v == JList(a.assets)
    || (kind == PullRequest
        && (v == a.pull || v == JList(a.commits) || v == JList(a.files) || v == JList(a.reviews)
            || v == a.reviewComments || v == a.status))
  }

  /** A reference somewhere in the answers about the item states the identity. */
  ghost predicate Mentions(kind: Kind, a: Answer, x: Identity, t: Tools) {
    exists v, part :: IsSource(v, kind, a) && IsReference(part) && Inside(part, v) && States(part, x, t.naming)
  }

  lemma SourcesIff(kind: Kind, a: Answer, v: Json)
    ensures v in Sources(kind, a) <==> IsSource(v, kind, a)
  {
    assert ItemSources(a)[0] in ItemSources(a) && ItemSources(a)[1] in ItemSources(a) && ItemSources(a)[2] in ItemSources(a);
    assert forall i | 0 <= i < 6 :: PullSources(a)[i] in PullSources(a);
    assert PullSources(a)[0] == a.pull && PullSources(a)[1] == JList(a.commits) && PullSources(a)[2] == JList(a.files)
           && PullSources(a)[3] == JList(a.reviews) && PullSources(a)[4] == a.reviewComments && PullSources(a)[5] == a.status;
  }

  lemma ReferencesIff(kind: Kind, a: Answer, part: Json)
    ensures part in References(Sources(kind, a)) <==> IsReference(part) && exists v :: IsSource(v, kind, a) && Inside(part, v)
  {
    hide Candidates, Inside, IsReference, IsSource, Sources;
    var sources := Sources(kind, a);
    forall v ensures v in sources <==> IsSource(v, kind, a) {
      SourcesIff(kind, a, v);
    }
    forall v ensures part in Candidates(v) <==> IsReference(part) && Inside(part, v) {
      CandidatesIff(v, part);
    }
    if v :| IsReference(part) && IsSource(v, kind, a) && Inside(part, v) {
      var i :| 0 <= i < |sources| && sources[i] == v;
      assert part in Candidates(sources[i]);
    }
    if part in References(sources) {
      var i :| 0 <= i < |sources| && part in Candidates(sources[i]);
      assert sources[i] in sources;
    }
  }

  lemma IdentitiesIff(kind: Kind, a: Answer, x: Identity, t: Tools)
    ensures x in IdentitiesOf(kind, a, t) <==> Mentions(kind, a, x, t)
  {
    hide References, Sources, Identify, States, IsReference, Inside, IsSource;
    forall part ensures part in References(Sources(kind, a)) <==> IsReference(part) && exists v :: IsSource(v, kind, a) && Inside(part, v) {
      ReferencesIff(kind, a, part);
    }
    forall part ensures Identify(part, t.naming) == Ok(x) <==> States(part, x, t.naming) {
      IdentifyIff(part, x, t.naming);
    }
  }

  // Plan entries.

  ghost predicate HasLabel(detail: Json, name: string) {
    && detail.At("labels").Some? && detail.At("labels").value.JList?
    && exists i :: 0 <= i < |detail.At("labels").value.items|
                   && detail.At("labels").value.items[i].At("name") == Some(JText(name))
  }

  /** The labels are missing, or a list of objects with names. */
  ghost predicate LabelsFit(detail: Json) {
    detail.At("labels").Some? ==>
      detail.At("labels").value.JList?
      && forall i | 0 <= i < |detail.At("labels").value.items| ::
           detail.At("labels").value.items[i].At("name").Some? && detail.At("labels").value.items[i].At("name").value.JText?
  }

  lemma LabelsIff(detail: Json)
    ensures LabelNames(detail).Some? <==> LabelsFit(detail)
    ensures LabelNames(detail).Some? ==> forall name :: name in LabelNames(detail).value <==> HasLabel(detail, name)
  {
    var labels := detail.At("labels");
    if LabelNames(detail).Some? && labels.Some? {
      var items := labels.value.items;
      forall name ensures name in LabelNames(detail).value <==> HasLabel(detail, name) {
        if i :| 0 <= i < |items| && items[i].At("name") == Some(JText(name)) {
          assert items[i].TextAt("name").value == name;
        }
        if i :| 0 <= i < |items| && items[i].TextAt("name").value == name {
          assert items[i].At("name") == Some(JText(name));
        }
      }
    }
  }

  ghost predicate StoresComment(a: Answer, id: int) {
    exists i :: 0 <= i < |a.comments| && a.comments[i].At("id") == Some(JInt(id))
  }

  /** The value at a key, and null where there is none. */
  ghost predicate ReadsAs(v: Json, key: string, value: Json) {
    if v.At(key) == None then value == JNull else v.At(key) == Some(value)
  }

  /** The value at a key of a nested object. */
  ghost predicate ReadsBelow(v: Json, part: string, key: string, value: Json) {
    if v.At(part).Some? && v.At(part).value.JObject? then ReadsAs(v.At(part).value, key, value) else value == JNull
  }

  ghost predicate ShowsPull(m: Metadata, pull: Json) {
    && ReadsAs(pull, "state", m.state) && ReadsAs(pull, "merged", m.merged) && ReadsAs(pull, "merged_at", m.mergedAt)
    && ReadsAs(pull, "merge_commit_sha", m.mergeCommitSha)
    && ReadsBelow(pull, "base", "ref", m.baseRef) && ReadsBelow(pull, "base", "sha", m.baseSha)
    && ReadsBelow(pull, "head", "ref", m.headRef) && ReadsBelow(pull, "head", "sha", m.headSha)
  }

  ghost predicate Increases(s: seq<string>) {
    forall i, j | 0 <= i < j < |s| :: s[i] != s[j] && StrLe(s[i], s[j])
  }

  /** The entry of an item: an issue keeps its state, a pull request is closed and labelled as legacy; the
      comments, labels and assets are listed once, in order. */
  ghost predicate EntryTells(e: Entry, n: int, kind: Kind, a: Answer, t: Tools) {
    && e.number == n && e.reason == None
    && (kind == Issue ==> e.kind == IssueEntry && ReadsAs(a.detail, "state", e.state) && e.pull == None)
    && (kind == PullRequest ==> e.kind == LegacyPr && e.state == JText("closed") && e.pull.Some? && ShowsPull(e.pull.value, a.pull))
    && ListsLabels(e.labels, kind, a) && ListsComments(e.commentIds, a) && ListsAssets(e.assetUuids, kind, a, t)
  }

  ghost predicate ListsLabels(labels: seq<string>, kind: Kind, a: Answer) {
    && Increases(labels)
    && (forall name :: name in labels <==> HasLabel(a.detail, name) || (kind == PullRequest && name == "legacy-pr"))
  }

  ghost predicate ListsComments(ids: seq<int>, a: Answer) {
    && (forall i, j | 0 <= i < j < |ids| :: ids[i] < ids[j])
    && (forall id :: id in ids <==> StoresComment(a, id))
  }

  ghost predicate ListsAssets(uuids: seq<string>, kind: Kind, a: Answer, t: Tools) {
    && Increases(uuids)
    && (forall u :: u in uuids <==> exists x :: Mentions(kind, a, x, t) && x.uuid == u)
  }

  lemma ReadsOrNull(v: Json, key: string)
    ensures ReadsAs(v, key, OrNull(v.At(key)))
  {
  }

  lemma PullShows(pull: Json)
    ensures ShowsPull(PullMetadata(pull), pull)
  {
  }

  lemma CommentIdsIff(a: Answer, id: int)
    ensures id in IntsAt(a.comments, "id") <==> StoresComment(a, id)
  {
    if i :| 0 <= i < |a.comments| && a.comments[i].At("id") == Some(JInt(id)) {
      assert a.comments[i].IntAt("id") == Some(id);
    }
  }

  lemma UuidsIff(kind: Kind, a: Answer, t: Tools, u: string)
    ensures u in Uuids(IdentitiesOf(kind, a, t)) <==> exists x :: Mentions(kind, a, x, t) && x.uuid == u
  {
    hide IdentitiesOf, Mentions;
    forall x ensures x in IdentitiesOf(kind, a, t) <==> Mentions(kind, a, x, t) {
      IdentitiesIff(kind, a, x, t);
    }
  }

  lemma LabelsListed(kind: Kind, a: Answer)
    requires LabelNames(a.detail).Some?
    ensures ListsLabels(SortedSet(LabelNames(a.detail).value + if kind == Issue then {} else {"legacy-pr"}), kind, a)
  {
    hide LabelNames, HasLabel, StrLe, SortedSet;
    LabelsIff(a.detail);
    var names := LabelNames(a.detail).value;
    SortedIncreases(names + if kind == Issue then {} else {"legacy-pr"});
    forall name ensures name in names + (if kind == Issue then {} else {"legacy-pr"}) <==>
                        HasLabel(a.detail, name) || (kind == PullRequest && name == "legacy-pr")
    {
    }
  }

  lemma SortedIncreases(s: set<string>)
    ensures Increases(SortedSet(s)) && forall x :: x in SortedSet(s) <==> x in s
  {
  }

  lemma CommentsListed(a: Answer)
    ensures ListsComments(SortedInts(IntsAt(a.comments, "id")), a)
  {
    hide IntsAt, StoresComment;
    forall id ensures id in IntsAt(a.comments, "id") <==> StoresComment(a, id) {
      CommentIdsIff(a, id);
    }
  }

  lemma AssetsListed(kind: Kind, a: Answer, t: Tools)
    ensures ListsAssets(SortedSet(Uuids(IdentitiesOf(kind, a, t))), kind, a, t)
  {
    hide Uuids, IdentitiesOf, Mentions, StrLe, SortedSet, Increases;
    SortedIncreases(Uuids(IdentitiesOf(kind, a, t)));
    forall u ensures u in Uuids(IdentitiesOf(kind, a, t)) <==> exists x :: Mentions(kind, a, x, t) && x.uuid == u {
      UuidsIff(kind, a, t, u);
    }
  }

  lemma EntryOfTells(n: int, kind: Kind, a: Answer, t: Tools)
    requires LabelNames(a.detail).Some?
    ensures EntryTells(EntryOf(n, kind, a, t), n, kind, a, t)
  {
    hide LabelNames, IntsAt, Uuids, IdentitiesOf, PullMetadata, ShowsPull, ListsLabels, ListsComments, ListsAssets, SortedSet,
         SortedInts, ReadsAs;
    PullShows(a.pull);
    LabelsListed(kind, a);
    CommentsListed(a);
    AssetsListed(kind, a, t);
    ReadsOrNull(a.detail, "state");
    assert LabelNames(a.detail).value + {} == LabelNames(a.detail).value;
  }

  /** A plan has the entry of each item at its number, and the reserved number as a closed tombstone. */
  lemma PlanTells(plan: seq<Entry>, index: Index, answers: Answers, t: Tools, i: nat)
    requires IsPlan(plan, index, answers, t) && i < |plan|
    ensures plan[i].number == i + 1
    ensures i + 1 != 86 ==> i + 1 in index.Numbers() && i + 1 in answers
                            && EntryTells(plan[i], i + 1, index.Kind(i + 1), answers[i + 1], t)
    ensures i + 1 == 86 ==> plan[i].kind == TombstoneEntry && plan[i].state == JText("closed") && plan[i].pull == None
                            && plan[i].labels == [] && plan[i].commentIds == [] && plan[i].assetUuids == []
  {
    hide LabelNames, EntryOf, EntryTells, Top;
    if i + 1 != TOMBSTONE {
      assert IsEntry(plan[i], i + 1, index, answers, t);
      EntryOfTells(i + 1, index.Kind(i + 1), answers[i + 1], t);
      EntryNumberIs(plan[i], i + 1, index.Kind(i + 1), answers[i + 1], t);
    }
  }

  lemma EntryNumberIs(e: Entry, n: int, kind: Kind, a: Answer, t: Tools)
    requires EntryTells(e, n, kind, a, t)
    ensures e.number == n
  {
  }

  // Assets.

  /** Some item mentions the identity. */
  ghost predicate Met(index: Index, answers: Answers, x: Identity, t: Tools) {
    exists n :: n in index.Numbers() && n in answers && Mentions(index.Kind(n), answers[n], x, t)
  }

  lemma MetIff(index: Index, answers: Answers, x: Identity, t: Tools)
    requires ItemsFit(index, answers, t)
    ensures x in AllIdentities(SortedInts(index.Numbers()), index, answers, t) <==> Met(index, answers, x, t)
  {
    hide ItemFits, IdentitiesOf, Mentions;
    var numbers := SortedInts(index.Numbers());
    forall n | n in numbers ensures n in answers && (x in IdentitiesOf(index.Kind(n), answers[n], t) <==> Mentions(index.Kind(n), answers[n], x, t)) {
      IdentitiesIff(index.Kind(n), answers[n], x, t);
    }
    if n :| n in index.Numbers() && n in answers && Mentions(index.Kind(n), answers[n], x, t) {
      var i :| 0 <= i < |numbers| && numbers[i] == n;
      assert x in IdentitiesOf(index.Kind(numbers[i]), answers[numbers[i]], t);
    }
    if x in AllIdentities(numbers, index, answers, t) {
      var i :| 0 <= i < |numbers| && x in IdentitiesOf(index.Kind(numbers[i]), answers[numbers[i]], t);
      assert numbers[i] in numbers;
    }
  }

  /** The row gives the size and the digest of the file at the path of its identity. */
  ghost predicate Describes(row: Row, files: Files, t: Tools) {
    && row.identity.path in files
    && row.size == |files[row.identity.path]| && row.digest == t.digest(files[row.identity.path])
  }

  /** The mapping has one row for each identity met, ordered by uuid, with the size and digest of its file. */
  lemma MappingTells(mapping: seq<Row>, files: Files, index: Index, answers: Answers, t: Tools)
    requires ItemsFit(index, answers, t) && IsMapping(mapping, files, index, answers, t)
    ensures forall i, j | 0 <= i < j < |mapping| ::
              mapping[i].identity.uuid != mapping[j].identity.uuid && StrLe(mapping[i].identity.uuid, mapping[j].identity.uuid)
    ensures forall x :: Met(index, answers, x, t) <==> exists i :: 0 <= i < |mapping| && mapping[i].identity == x
    ensures forall i | 0 <= i < |mapping| :: Describes(mapping[i], files, t)
  {
    hide ItemFits, AllIdentities, Met, StrLe, Holds, Mapping, Describes;
    var met := AllIdentities(SortedInts(index.Numbers()), index, answers, t);
    var table: Table :| Holds(table, met) && (forall u | u in table :: table[u].path in files) && mapping == Mapping(table, files, t);
    RowsOfTable(table, files, t, met);
    forall x ensures Met(index, answers, x, t) <==> exists i :: 0 <= i < |mapping| && mapping[i].identity == x {
      MetIff(index, answers, x, t);
    }
  }

  lemma RowAt(table: Table, files: Files, t: Tools, met: set<Identity>, i: nat)
    requires Holds(table, met) && (forall u | u in table :: table[u].path in files) && i < |SortedSet(table.Keys)|
    ensures var u, row := SortedSet(table.Keys)[i], Mapping(table, files, t)[i];
            u in table && row.identity == table[u] && row.identity.uuid == u && row.identity in met && Describes(row, files, t)
  {
    hide SortedSet;
    assert SortedSet(table.Keys)[i] in SortedSet(table.Keys);
  }

  lemma RowsOfTable(table: Table, files: Files, t: Tools, met: set<Identity>)
    requires Holds(table, met) && forall u | u in table :: table[u].path in files
    ensures var rows := Mapping(table, files, t);
            && (forall i, j | 0 <= i < j < |rows| ::
                  rows[i].identity.uuid != rows[j].identity.uuid && StrLe(rows[i].identity.uuid, rows[j].identity.uuid))
            && (forall x :: x in met <==> exists i :: 0 <= i < |rows| && rows[i].identity == x)
            && (forall i | 0 <= i < |rows| :: Describes(rows[i], files, t))
  {
    hide StrLe, RowOf, Describes;
    var rows, uuids := Mapping(table, files, t), SortedSet(table.Keys);
    forall i | 0 <= i < |rows|
      ensures uuids[i] in table && rows[i].identity == table[uuids[i]] && rows[i].identity.uuid == uuids[i]
      ensures rows[i].identity in met && Describes(rows[i], files, t)
    {
      RowAt(table, files, t, met, i);
    }
    forall x | x in met ensures exists i :: 0 <= i < |rows| && rows[i].identity == x {
      var i :| 0 <= i < |uuids| && uuids[i] == x.uuid;
      assert rows[i].identity == x;
    }
  }

  // Comments.

  lemma {:induction false} ByIdHolds(comments: seq<Json>, i: nat, id: int)
    requires UniqueInts(comments, "id") && i < |comments| && comments[i].IntAt("id") == Some(id)
    ensures id in ById(comments) && ById(comments)[id] == comments[i]
  {
    var front, n := comments[..|comments| - 1], |comments| - 1;
    if i < n {
      assert UniqueInts(front, "id") by {
        assert forall k | 0 <= k < n :: front[k] == comments[k];
      }
      ByIdHolds(front, i, id);
      assert comments[n].IntAt("id") != comments[i].IntAt("id");
    }
  }

  lemma {:induction false} StoredUnder(numbers: seq<int>, index: Index, answers: Answers, t: Tools, n: int, id: int)
    requires (forall m | m in numbers :: m in answers) && n in numbers && id in ById(answers[n].comments)
    requires forall m | m in numbers && m != n :: id !in ById(answers[m].comments)
    requires forall i, j | 0 <= i < j < |numbers| :: numbers[i] < numbers[j]
    ensures id in AllComments(numbers, answers) && AllComments(numbers, answers)[id] == ById(answers[n].comments)[id]
    ensures id in AllParents(numbers, index, answers, t) && AllParents(numbers, index, answers, t)[id] == ParentOf(n, index, t)
  {
    hide ById;
    var front, last := numbers[..|numbers| - 1], numbers[|numbers| - 1];
    assert numbers == front + [last];
    if n != last {
      assert last in numbers;
      StoredUnder(front, index, answers, t, n, id);
    } else {
      assert forall m | m in front :: m in numbers;
    }
  }

  /** A comment stored under an item is the indexed comment with its id: both name that item as their
      parent, and both have one content. */
  lemma CommentsAgree(index: Index, answers: Answers, t: Tools, n: int, i: nat, k: nat)
    requires Agreed(index, answers, t) && n in index.Numbers() && i < |index.comments|
    requires k < |answers[n].comments| && answers[n].comments[k].IntAt("id") == index.comments[i].IntAt("id")
    ensures t.parentOf(index.comments[i]) == Some(Parent(index.Kind(n), t.origin, t.repository, n))
    ensures t.parentOf(answers[n].comments[k]) == Some(Parent(index.Kind(n), t.origin, t.repository, n))
    ensures t.project(index.comments[i]).Some? && t.project(index.comments[i]) == t.project(answers[n].comments[k])
  {
    hide AllIdentities, Compatible, IsContiguous, Identified, IntsAt, ById, AllComments, AllParents;
    var numbers := SortedInts(index.Numbers());
    var own := answers[n].comments;
    assert ItemFits(n, index.Kind(n), answers[n], t);
    var id := index.comments[i].IntAt("id").value;
    ByIdHolds(own, k, id);
    forall m | m in numbers && m != n ensures m in answers && id !in ById(answers[m].comments) {
      IdsOfComments(answers[m].comments);
      IdsOfComments(own);
    }
    StoredUnder(numbers, index, answers, t, n, id);
  }

  /** The indexed item with a number is the one that has it. */
  lemma {:induction false} ItemIs(items: seq<Json>, n: int, i: nat)
    requires UniqueInts(items, "number") && i < |items| && items[i].IntAt("number") == Some(n)
    ensures ItemOf(items, n) == items[i]
  {
    var front, last := items[..|items| - 1], |items| - 1;
    if i < last {
      assert items[last].IntAt("number") != items[i].IntAt("number");
      assert forall k | 0 <= k < last :: front[k] == items[k];
      ItemIs(front, n, i);
    }
  }

  /** The reference states an identity. */
  ghost predicate Identifiable(asset: Json, t: Tools) {
    exists x :: States(asset, x, t.naming)
  }

  lemma IdentifiableIff(asset: Json, t: Tools)
    ensures Identify(asset, t.naming).Ok? <==> Identifiable(asset, t)
  {
    hide Identify, States;
    forall x ensures Identify(asset, t.naming) == Ok(x) <==> States(asset, x, t.naming) {
      IdentifyIff(asset, x, t.naming);
    }
    if Identify(asset, t.naming).Ok? {
      assert States(asset, Identify(asset, t.naming).value, t.naming);
    }
  }

  /** The two objects have the same id, and neither having one counts as the same. */
  ghost predicate SameId(v: Json, w: Json) {
    exists x, y :: ReadsAs(v, "id", x) && ReadsAs(w, "id", y) && SameScalar(x, y)
  }

  lemma SameIdIff(v: Json, w: Json)
    ensures Equals(OrNull(v.At("id")), OrNull(w.At("id"))) <==> SameId(v, w)
  {
    hide Equals, SameScalar;
    SameScalarIff(OrNull(v.At("id")), OrNull(w.At("id")));
    assert ReadsAs(v, "id", OrNull(v.At("id"))) && ReadsAs(w, "id", OrNull(w.At("id")));
  }

  /** What only the validation asks of an item: its references are identified, it has the id it is indexed
      with, an issue is open or closed, and the payloads of a pull request are known. */
  lemma KnownIff(indexed: Json, kind: Kind, a: Answer, t: Tools)
    ensures ItemIsKnown(indexed, kind, a, t) <==>
            && (forall i | 0 <= i < |a.assets| :: Identifiable(a.assets[i], t))
            && SameId(if kind == Issue then a.detail else a.pull, indexed)
            && (kind == Issue ==> a.detail.At("state") == Some(JText("open")) || a.detail.At("state") == Some(JText("closed")))
            && (kind == PullRequest ==>
                PullIsKnown(a.pull, a.commits, a.files, a.reviews, a.reviewComments, a.status, a.diff, a.patch, t.isSha))
  {
    hide Identify, Identifiable, PullIsKnown, SameId, Equals;
    forall i | 0 <= i < |a.assets| ensures Identify(a.assets[i], t.naming).Ok? <==> Identifiable(a.assets[i], t) {
      IdentifiableIff(a.assets[i], t);
    }
    SameIdIff(if kind == Issue then a.detail else a.pull, indexed);
    StateTextIff(a.detail, "open");
    StateTextIff(a.detail, "closed");
  }

  lemma StateTextIff(v: Json, text: string)
    ensures v.TextAt("state") == Some(text) <==> v.At("state") == Some(JText(text))
  {
  }

  /** Equal values, where a number equals the same number of another type, and a flag counts as 1 or 0. */
  ghost predicate SameScalar(v: Json, w: Json) {
    v == w || exists x :: CountsAs(v, x) && CountsAs(w, x)
  }

  ghost predicate CountsAs(v: Json, x: real) {
    v == JReal(x) || (v.JInt? && v.number as real == x) || (v == JBool(true) && x == 1.0) || (v == JBool(false) && x == 0.0)
  }

  lemma SameScalarIff(v: Json, w: Json)
    ensures Equals(v, w) <==> SameScalar(v, w)
  {
    forall u: Json, x: real ensures CountsAs(u, x) <==> NumberOf(u) == Some(x) {
    }
    if NumberOf(v).Some? {
      assert CountsAs(v, NumberOf(v).value);
    }
  }

  // Pull requests of a valid snapshot.

  ghost predicate HashBelow(pull: Json, part: string, isSha: Json -> bool) {
    exists v :: ReadsBelow(pull, part, "sha", v) && isSha(v)
  }

  ghost predicate NamedBelow(pull: Json, part: string) {
    exists name :: name != "" && ReadsBelow(pull, part, "ref", JText(name))
  }

  /** The source has no status for the head commit, or one that names it. */
  ghost predicate StatusFits(status: Json, pull: Json) {
    || (&& status.JObject? && status.fields.Keys == {"available", "reason"} && status.At("reason") == Some(JText("endpoint-unavailable"))
        && (status.At("available") == Some(JBool(false)) || status.At("available") == Some(JInt(0))
            || status.At("available") == Some(JReal(0.0))))
    || (&& status.JObject? && (exists state :: status.At("state") == Some(JText(state)))
        && exists sha :: ReadsAs(status, "sha", sha) && ReadsBelow(pull, "head", "sha", sha))
  }

  lemma StatusIff(status: Json, pull: Json)
    ensures StatusIsKnown(status, PullMetadata(pull).headSha) <==> StatusFits(status, pull)
  {
    if status.TextAt("state").Some? {
      assert status.At("state") == Some(JText(status.TextAt("state").value));
    }
    assert ReadsAs(status, "sha", OrNull(status.At("sha")));
    assert ReadsBelow(pull, "head", "sha", PullMetadata(pull).headSha);
  }

  lemma MetadataIff(pull: Json, isSha: Json -> bool)
    ensures MetadataIsKnown(PullMetadata(pull), isSha) <==>
            && (pull.At("merged") == Some(JBool(true)) || pull.At("merged") == Some(JBool(false)))
            && NamedBelow(pull, "base") && NamedBelow(pull, "head")
            && HashBelow(pull, "base", isSha) && HashBelow(pull, "head", isSha)
            && exists v :: ReadsAs(pull, "merge_commit_sha", v) && (v == JNull || isSha(v))
  {
    var m := PullMetadata(pull);
    PullShows(pull);
    assert ReadsBelow(pull, "base", "sha", m.baseSha) && ReadsBelow(pull, "head", "sha", m.headSha);
    assert ReadsAs(pull, "merge_commit_sha", m.mergeCommitSha);
    if m.baseRef.JText? {
      assert ReadsBelow(pull, "base", "ref", JText(m.baseRef.text));
    }
    if m.headRef.JText? {
      assert ReadsBelow(pull, "head", "ref", JText(m.headRef.text));
    }
  }

  /** A pull request is known exactly when its detail says whether it was merged and names both branches and
      commits, its commits and files are told apart, its reviews have their comments, and its status,
      diff and patch are those of its head or missing. */
  lemma PullKnownIff(a: Answer, isSha: Json -> bool)
    ensures PullIsKnown(a.pull, a.commits, a.files, a.reviews, a.reviewComments, a.status, a.diff, a.patch, isSha) <==>
            && (a.pull.At("merged") == Some(JBool(true)) || a.pull.At("merged") == Some(JBool(false)))
            && NamedBelow(a.pull, "base") && NamedBelow(a.pull, "head")
            && HashBelow(a.pull, "base", isSha) && HashBelow(a.pull, "head", isSha)
            && (exists v :: ReadsAs(a.pull, "merge_commit_sha", v) && (v == JNull || isSha(v)))
            && UniqueTexts(a.commits, "sha", isSha) && UniqueTexts(a.files, "filename", Any())
            && ReviewsAreKnown(a.reviews, a.reviewComments)
            && StatusFits(a.status, a.pull)
            && a.diff != Some([]) && a.patch != Some([])
  {
    hide MetadataIsKnown, PullMetadata, NamedBelow, HashBelow, UniqueTexts, ReviewsAreKnown, StatusFits, StatusIsKnown, ReadsAs, Any;
    PullParts(a.pull, a.commits, a.files, a.reviews, a.reviewComments, a.status, a.diff, a.patch, isSha);
    MetadataIff(a.pull, isSha);
    StatusIff(a.status, a.pull);
  }
}
