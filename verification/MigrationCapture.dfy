/** What a capture and its later validation must agree on: the number plan, the comments of each
    item, and the asset mapping. Both passes are specified over the same captured payloads, without
    any order of references. */
module MigrationCapture {
  import opened JsonValues
  import opened Wrappers
  import opened Numbers
  import opened Ordering
  import opened Pagination
  import opened MigrationAssets
  import opened MigrationChecks

  const TOMBSTONE := 86

  // Payloads.

  /** The answers of the source about one item; the fields from `pull` on are read for pull requests. */
  datatype Answer = Answer(detail: Json, comments: seq<Json>, assets: seq<Json>, pull: Json, commits: seq<Json>,
                           files: seq<Json>, reviews: seq<Json>, reviewComments: Json, status: Json,
                           diff: Option<Bytes>, patch: Option<Bytes>)

  type Answers = map<int, Answer>

  datatype Index = Index(labels: seq<Json>, issues: seq<Json>, pulls: seq<Json>, comments: seq<Json>)
  {
    function Issues(): set<int> {
      IntsAt(issues, "number")
    }

    function Pulls(): set<int> {
      IntsAt(pulls, "number")
    }

    function Numbers(): set<int> {
      Issues() + Pulls()
    }

    function Kind(n: int): Kind {
      if n in Issues() then Issue else PullRequest
    }

    /** The indexed item with the number. */
    function Item(n: int): Json {
      ItemOf(if Kind(n) == Issue then issues else pulls, n)
    }
  }

  datatype Kind = Issue | PullRequest

  datatype Parent = Parent(kind: Kind, origin: string, repository: string, number: int)

  /** Parsing that is not part of this model: commit hashes, comment URLs and comment projections. */
  datatype Tools = Tools(origin: string, repository: string, naming: Naming, isSha: Json -> bool,
                         parentOf: Json -> Option<Parent>, project: Json -> Option<Json>, digest: Bytes -> string)

  /** The payloads searched for references. */
  function Sources(kind: Kind, a: Answer): seq<Json> {
    ItemSources(a) + if kind == Issue then [] else PullSources(a)
  }

  function ItemSources(a: Answer): seq<Json> {
    [a.detail, JList(a.comments), JList(a.assets)]
  }

  function PullSources(a: Answer): seq<Json> {
    [a.pull, JList(a.commits), JList(a.files), JList(a.reviews), a.reviewComments, a.status]
  }

  function References(sources: seq<Json>): set<Json> {
    set i, c | 0 <= i < |sources| && c in Candidates(sources[i]) :: c
  }

  function Identified(refs: set<Json>, naming: Naming): set<Identity> {
    set c | c in refs && Identify(c, naming).Ok? :: Identify(c, naming).value
  }

  function Uuids(met: set<Identity>): set<string> {
    set a | a in met :: a.uuid
  }

  function IdentitiesOf(kind: Kind, a: Answer, t: Tools): set<Identity> {
    Identified(References(Sources(kind, a)), t.naming)
  }

  ghost predicate AllIdentified(refs: set<Json>, naming: Naming) {
    forall c | c in refs :: Identify(c, naming).Ok?
  }

  // The plan.

  /** `_extract_labels`, before sorting. */
  function LabelNames(detail: Json): Option<set<string>> {
    match detail.At("labels")
    case None => Some({})
    case Some(JList(items)) =>
      if forall i | 0 <= i < |items| :: items[i].TextAt("name").Some? then
        Some(set i | 0 <= i < |items| :: items[i].TextAt("name").value)
      else None
    case _ => None
  }

  datatype EntryType = IssueEntry | LegacyPr | TombstoneEntry

  datatype Entry = Entry(number: int, kind: EntryType, state: Json, labels: seq<string>, commentIds: seq<int>,
                         assetUuids: seq<string>, pull: Option<Metadata>, reason: Option<string>)

  function TombstoneEntryOf(): Entry {
    Entry(TOMBSTONE, TombstoneEntry, JText("closed"), [], [], [], None,
          Some("Deleted Gitea item; reserve the historical number."))
  }

  /** The plan entry of one captured item. */
  function EntryOf(n: int, kind: Kind, a: Answer, t: Tools): Entry
    requires LabelNames(a.detail).Some?
  {
    var names, ids := LabelNames(a.detail).value, SortedInts(IntsAt(a.comments, "id"));
    var uuids := SortedSet(Uuids(IdentitiesOf(kind, a, t)));
    match kind
    case Issue => Entry(n, IssueEntry, OrNull(a.detail.At("state")), SortedSet(names), ids, uuids, None, None)
    case PullRequest =>
      Entry(n, LegacyPr, JText("closed"), SortedSet(names + {"legacy-pr"}), ids, uuids, Some(PullMetadata(a.pull)), None)
  }

  // What both passes demand.

  ghost predicate IndexFits(index: Index) {
    && UniqueInts(index.labels, "id") && UniqueInts(index.issues, "id") && UniqueInts(index.pulls, "id")
    && UniqueInts(index.comments, "id")
    && UniqueInts(index.issues, "number") && UniqueInts(index.pulls, "number")
    && index.Issues() !! index.Pulls()
  }

  ghost predicate ItemShape(n: int, kind: Kind, a: Answer, t: Tools) {
    && a.detail.IntAt("number") == Some(n) && UniqueInts(a.comments, "id") && UniqueInts(a.assets, "id")
    && LabelNames(a.detail).Some?
    && (kind == PullRequest ==>
        && a.pull.IntAt("number") == Some(n) && a.pull.TextAt("state") == Some("closed")
        && UniqueInts(a.reviews, "id") && t.isSha(PullMetadata(a.pull).headSha))
  }

  ghost predicate ItemFits(n: int, kind: Kind, a: Answer, t: Tools) {
    ItemShape(n, kind, a, t) && AllIdentified(References(Sources(kind, a)), t.naming)
  }

  ghost predicate ItemsFit(index: Index, answers: Answers, t: Tools) {
    forall n | n in index.Numbers() :: n in answers && ItemFits(n, index.Kind(n), answers[n], t)
  }

  /** No comment is stored under two items. */
  ghost predicate CommentsAreApart(index: Index, answers: Answers)
    requires forall n | n in index.Numbers() :: n in answers
  {
    forall m, n | m in index.Numbers() && n in index.Numbers() && m != n ::
      IntsAt(answers[m].comments, "id") !! IntsAt(answers[n].comments, "id")
  }

  function AllIdentities(numbers: seq<int>, index: Index, answers: Answers, t: Tools): set<Identity>
    requires forall n | n in numbers :: n in answers
  {
    set i, a | 0 <= i < |numbers| && a in IdentitiesOf(index.Kind(numbers[i]), answers[numbers[i]], t) :: a
  }

  type Comments = map<int, Json>

  type Parents = map<int, Parent>

  /** The comments of a list, by id. */
  function ById(comments: seq<Json>): Comments {
    if comments == [] then map[]
    else
      var last := comments[|comments| - 1];
      var front := ById(comments[..|comments| - 1]);
      if last.IntAt("id").Some? then front[last.IntAt("id").value := last] else front
  }

  function ParentsOf(comments: seq<Json>, parent: Parent): Parents {
    map id | id in ById(comments) :: parent
  }

  function ParentOf(n: int, index: Index, t: Tools): Parent {
    Parent(index.Kind(n), t.origin, t.repository, n)
  }

  function AllComments(numbers: seq<int>, answers: Answers): Comments
    requires forall n | n in numbers :: n in answers
  {
    if numbers == [] then map[]
    else
      var n := numbers[|numbers| - 1];
      AllComments(numbers[..|numbers| - 1], answers) + ById(answers[n].comments)
  }

  function AllParents(numbers: seq<int>, index: Index, answers: Answers, t: Tools): Parents
    requires forall n | n in numbers :: n in answers
  {
    if numbers == [] then map[]
    else
      var n := numbers[|numbers| - 1];
      AllParents(numbers[..|numbers| - 1], index, answers, t) + ParentsOf(answers[n].comments, ParentOf(n, index, t))
  }

  predicate Reconciles(shared: Json, own: Json, parent: Parent, t: Tools) {
    && t.parentOf(shared) == Some(parent) && t.parentOf(own) == Some(parent)
    && t.project(shared).Some? && t.project(shared) == t.project(own)
  }

  /** `_reconcile_comment_parents`: the comment index and the comments of the items are the same
      comments, with the same content and the parent each was captured under. */
  ghost predicate Reconciled(shared: seq<Json>, own: Comments, parents: Parents, t: Tools) {
    && UniqueInts(shared, "id") && IntsAt(shared, "id") == parents.Keys == own.Keys
    && forall i | 0 <= i < |shared| ::
         var id := shared[i].IntAt("id").value;
         id in own && id in parents && Reconciles(shared[i], own[id], parents[id], t)
  }

  function Top(numbers: set<int>): int {
    var all := SortedInts(numbers + {TOMBSTONE});
    all[|all| - 1]
  }

  ghost predicate IsContiguous(numbers: set<int>) {
    forall n :: n in numbers + {TOMBSTONE} <==> 1 <= n <= Top(numbers)
  }

  ghost predicate Agreed(index: Index, answers: Answers, t: Tools) {
    && IndexFits(index) && TOMBSTONE !in index.Numbers() && IsContiguous(index.Numbers())
    && ItemsFit(index, answers, t) && CommentsAreApart(index, answers)
    && var numbers := SortedInts(index.Numbers());
       && Compatible(AllIdentities(numbers, index, answers, t))
       && Reconciled(index.comments, AllComments(numbers, answers), AllParents(numbers, index, answers, t), t)
  }

  // The capture.

  datatype Row = Row(identity: Identity, size: nat, digest: string)

  type Files = map<string, Bytes>

  function RowOf(a: Identity, payload: Bytes, t: Tools): Row {
    Row(a, |payload|, t.digest(payload))
  }

  function Mapping(table: Table, files: Files, t: Tools): seq<Row>
    requires forall u | u in table :: table[u].path in files
  {
    var uuids := SortedSet(table.Keys);
    seq(|uuids|, i requires 0 <= i < |uuids| => RowOf(table[uuids[i]], files[table[uuids[i]].path], t))
  }

  datatype Snapshot = Snapshot(index: Index, answers: Answers, files: Files, plan: seq<Entry>, mapping: seq<Row>)

  /** `_capture_items` succeeds: both passes agree, some item exists, and every asset was downloaded. */
  ghost predicate Capturable(index: Index, answers: Answers, downloads: Files, t: Tools) {
    && Agreed(index, answers, t) && index.Numbers() != {}
    && forall a | a in AllIdentities(SortedInts(index.Numbers()), index, answers, t) :: a.uuid in downloads
  }

  ghost predicate IsEntry(e: Entry, n: int, index: Index, answers: Answers, t: Tools) {
    && n in index.Numbers() && n in answers && LabelNames(answers[n].detail).Some?
    && e == EntryOf(n, index.Kind(n), answers[n], t)
  }

  /** The plan lists the numbers from 1 on, each with the entry of its item or the tombstone. */
  ghost predicate IsPlan(plan: seq<Entry>, index: Index, answers: Answers, t: Tools) {
    && |plan| == Top(index.Numbers())
    && forall i | 0 <= i < |plan| ::
         if i + 1 == TOMBSTONE then plan[i] == TombstoneEntryOf() else IsEntry(plan[i], i + 1, index, answers, t)
  }

  /** The mapping holds one row for each identity met, over the files as written. */
  ghost predicate IsMapping(mapping: seq<Row>, files: Files, index: Index, answers: Answers, t: Tools)
    requires ItemsFit(index, answers, t)
  {
    exists table: Table :: Holds(table, AllIdentities(SortedInts(index.Numbers()), index, answers, t))
                    && (forall u | u in table :: table[u].path in files) && mapping == Mapping(table, files, t)
  }

  ghost predicate IsCapture(s: Snapshot, index: Index, answers: Answers, downloads: Files, t: Tools)
    requires Capturable(index, answers, downloads, t)
  {
    && s.index == index && s.answers == answers
    && IsPlan(s.plan, index, answers, t) && IsMapping(s.mapping, s.files, index, answers, t)
    && forall a | a in AllIdentities(SortedInts(index.Numbers()), index, answers, t) ::
         a.path in s.files && a.uuid in downloads && s.files[a.path] == downloads[a.uuid]
  }

  // The validation.

  /** What only the validation demands of an item: every entry of its asset list can be identified, its
      detail has the indexed id, an issue is open or closed, and the payloads of a pull request are known. */
  ghost predicate ItemIsKnown(indexed: Json, kind: Kind, a: Answer, t: Tools) {
    && (forall i | 0 <= i < |a.assets| :: Identify(a.assets[i], t.naming).Ok?)
    && Equals(OrNull((if kind == Issue then a.detail else a.pull).At("id")), OrNull(indexed.At("id")))
    && if kind == Issue then a.detail.TextAt("state") == Some("open") || a.detail.TextAt("state") == Some("closed")
       else PullIsKnown(a.pull, a.commits, a.files, a.reviews, a.reviewComments, a.status, a.diff, a.patch, t.isSha)
  }

  ghost predicate AllKnown(index: Index, answers: Answers, t: Tools)
    requires forall n | n in index.Numbers() :: n in answers
  {
    forall n | n in index.Numbers() :: ItemIsKnown(index.Item(n), index.Kind(n), answers[n], t)
  }

  /** The index, item, plan, comment and asset checks of `_validate_data`. */
  ghost predicate IsValid(s: Snapshot, t: Tools) {
    && Agreed(s.index, s.answers, t) && AllKnown(s.index, s.answers, t)
    && IsPlan(s.plan, s.index, s.answers, t) && IsMapping(s.mapping, s.files, s.index, s.answers, t)
  }

  // The items of a list of numbers, one after the other.

  ghost predicate ApartUpTo(numbers: seq<int>, answers: Answers)
    requires forall n | n in numbers :: n in answers
  {
    forall i, j | 0 <= i < j < |numbers| ::
      var m, n := numbers[i], numbers[j];
      IntsAt(answers[m].comments, "id") !! IntsAt(answers[n].comments, "id")
  }

  ghost predicate FitUpTo(numbers: seq<int>, index: Index, answers: Answers, t: Tools) {
    && (forall n | n in numbers :: n in answers && ItemFits(n, index.Kind(n), answers[n], t))
    && ApartUpTo(numbers, answers) && Compatible(AllIdentities(numbers, index, answers, t))
  }

  lemma IdentitiesSnoc(numbers: seq<int>, n: int, index: Index, answers: Answers, t: Tools)
    requires forall m | m in numbers + [n] :: m in answers
    ensures n in answers && forall m | m in numbers :: m in answers
    ensures AllIdentities(numbers + [n], index, answers, t)
            == AllIdentities(numbers, index, answers, t) + IdentitiesOf(index.Kind(n), answers[n], t)
  {
    hide IdentitiesOf;
    var all := numbers + [n];
    assert all[|numbers|] == n && n in all;
    assert forall i | 0 <= i < |numbers| :: all[i] == numbers[i] && numbers[i] in all;
  }

  lemma ApartSnoc(numbers: seq<int>, n: int, answers: Answers)
    requires n in answers && forall m | m in numbers :: m in answers
    ensures ApartUpTo(numbers + [n], answers) <==>
            ApartUpTo(numbers, answers) && IntsAt(answers[n].comments, "id") !! AllComments(numbers, answers).Keys
  {
    hide IntsAt, AllComments;
    var all := numbers + [n];
    assert all[|numbers|] == n && forall i | 0 <= i < |numbers| :: all[i] == numbers[i];
    forall id { CommentsOfItems(numbers, answers, id); }
    if ApartUpTo(all, answers) {
      forall m | m in numbers ensures IntsAt(answers[m].comments, "id") !! IntsAt(answers[n].comments, "id") {
        var i :| 0 <= i < |numbers| && numbers[i] == m;
        assert all[i] == m;
      }
    }
  }

  /** One more item fits exactly when it fits by itself, with new comments and compatible identities. */
  lemma FitSnoc(numbers: seq<int>, n: int, index: Index, answers: Answers, t: Tools)
    requires FitUpTo(numbers, index, answers, t) && n in answers
    ensures FitUpTo(numbers + [n], index, answers, t) <==>
            && ItemFits(n, index.Kind(n), answers[n], t)
            && IntsAt(answers[n].comments, "id") !! AllComments(numbers, answers).Keys
            && Compatible(AllIdentities(numbers, index, answers, t) + IdentitiesOf(index.Kind(n), answers[n], t))
  {
    hide ItemFits, AllComments, AllIdentities, IdentitiesOf, Compatible, ApartUpTo, IntsAt;
    assert forall m | m in numbers + [n] :: m in answers;
    IdentitiesSnoc(numbers, n, index, answers, t);
    ApartSnoc(numbers, n, answers);
    assert n in numbers + [n] && forall m | m in numbers :: m in numbers + [n];
  }

  lemma FitPrefix(numbers: seq<int>, i: nat, index: Index, answers: Answers, t: Tools)
    requires i <= |numbers| && FitUpTo(numbers, index, answers, t)
    ensures FitUpTo(numbers[..i], index, answers, t)
  {
    hide ItemFits, IdentitiesOf, Conflict, IntsAt;
    var front := numbers[..i];
    assert forall n | n in front :: n in numbers;
    assert forall k | 0 <= k < i :: front[k] == numbers[k];
    assert AllIdentities(front, index, answers, t) <= AllIdentities(numbers, index, answers, t);
  }

  lemma ApartIsApart(numbers: seq<int>, index: Index, answers: Answers)
    requires forall n :: n in numbers <==> n in index.Numbers()
    requires forall i, j | 0 <= i < j < |numbers| :: numbers[i] < numbers[j]
    requires forall n | n in numbers :: n in answers
    ensures ApartUpTo(numbers, answers) <==> CommentsAreApart(index, answers)
  {
    hide IntsAt;
    if ApartUpTo(numbers, answers) {
      forall m, n | m in index.Numbers() && n in index.Numbers() && m != n
        ensures IntsAt(answers[m].comments, "id") !! IntsAt(answers[n].comments, "id")
      {
        var i :| 0 <= i < |numbers| && numbers[i] == m;
        var j :| 0 <= j < |numbers| && numbers[j] == n;
      }
    }
    if CommentsAreApart(index, answers) {
      forall i, j | 0 <= i < j < |numbers|
        ensures IntsAt(answers[numbers[i]].comments, "id") !! IntsAt(answers[numbers[j]].comments, "id")
      {
      }
    }
  }

  lemma FitIsAgreement(index: Index, answers: Answers, t: Tools)
    ensures FitUpTo(SortedInts(index.Numbers()), index, answers, t) <==>
            && ItemsFit(index, answers, t) && CommentsAreApart(index, answers)
            && Compatible(AllIdentities(SortedInts(index.Numbers()), index, answers, t))
  {
    hide ItemFits, AllIdentities, Compatible, IntsAt, ApartUpTo, CommentsAreApart;
    var numbers := SortedInts(index.Numbers());
    if forall n | n in numbers :: n in answers {
      ApartIsApart(numbers, index, answers);
    }
  }

  // What a capture guarantees.

  lemma {:induction false} IdsOfComments(comments: seq<Json>)
    ensures ById(comments).Keys == IntsAt(comments, "id")
  {
    if comments != [] {
      var front, last := comments[..|comments| - 1], comments[|comments| - 1];
      IdsOfComments(front);
      assert comments == front + [last];
      assert forall i | 0 <= i < |front| :: comments[i] == front[i];
      assert IntsAt(comments, "id") == IntsAt(front, "id") + if last.IntAt("id").Some? then {last.IntAt("id").value} else {};
    }
  }

  lemma {:induction false} CommentsOfItems(numbers: seq<int>, answers: Answers, id: int)
    requires forall n | n in numbers :: n in answers
    ensures id in AllComments(numbers, answers) <==> exists n :: n in numbers && id in IntsAt(answers[n].comments, "id")
  {
    if numbers != [] {
      var front, last := numbers[..|numbers| - 1], numbers[|numbers| - 1];
      assert numbers == front + [last];
      CommentsOfItems(front, answers, id);
      IdsOfComments(answers[last].comments);
    }
  }

  /** The comments are partitioned over the items: every indexed comment is stored under exactly one
      item, and every stored comment is indexed. */
  lemma CommentsArePartitioned(index: Index, answers: Answers, t: Tools, id: int)
    requires Agreed(index, answers, t)
    ensures id in IntsAt(index.comments, "id") <==>
            exists n :: n in index.Numbers() && id in IntsAt(answers[n].comments, "id")
    ensures forall m, n | m in index.Numbers() && n in index.Numbers() && id in IntsAt(answers[m].comments, "id")
                          && id in IntsAt(answers[n].comments, "id") :: m == n
  {
    hide IsContiguous, AllIdentities, Compatible, ItemFits, AllParents, Reconciles;
    CommentsOfItems(SortedInts(index.Numbers()), answers, id);
    assert id in AllComments(SortedInts(index.Numbers()), answers) <==> id in IntsAt(index.comments, "id");
    forall m, n | m in index.Numbers() && n in index.Numbers() && id in IntsAt(answers[m].comments, "id")
                  && id in IntsAt(answers[n].comments, "id")
      ensures m == n
    {
    }
  }

  lemma EntryComments(e: Entry, n: int, index: Index, answers: Answers, t: Tools, id: int)
    requires IsEntry(e, n, index, answers, t)
    ensures n in index.Numbers() && n in answers && (id in e.commentIds <==> id in IntsAt(answers[n].comments, "id"))
  {
    hide IdentitiesOf, LabelNames;
  }

  /** In the plan too: an indexed comment is named by exactly one entry, and the tombstone names none. */
  lemma PlanPartitionsComments(plan: seq<Entry>, index: Index, answers: Answers, t: Tools, id: int)
    requires Agreed(index, answers, t) && IsPlan(plan, index, answers, t)
    ensures id in IntsAt(index.comments, "id") <==> exists i :: 0 <= i < |plan| && id in plan[i].commentIds
    ensures forall i, j | 0 <= i < |plan| && 0 <= j < |plan| && id in plan[i].commentIds && id in plan[j].commentIds :: i == j
  {
    hide *;
    CommentsArePartitioned(index, answers, t, id);
    PlanNamesComments(plan, index, answers, t, id);
    PlanCovers(plan, index, answers, t);
    if n :| n in index.Numbers() && id in IntsAt(answers[n].comments, "id") {
      assert id in plan[n - 1].commentIds;
    }
  }

  lemma PlanNamesComments(plan: seq<Entry>, index: Index, answers: Answers, t: Tools, id: int)
    requires Agreed(index, answers, t) && IsPlan(plan, index, answers, t)
    ensures forall n | n in index.Numbers() :: 1 <= n <= |plan|
    ensures forall i | 0 <= i < |plan| ::
              id in plan[i].commentIds <==> i + 1 in index.Numbers() && id in IntsAt(answers[i + 1].comments, "id")
  {
    hide Agreed, IsEntry, IntsAt, TombstoneEntryOf, Top;
    PlanCovers(plan, index, answers, t);
    forall i | 0 <= i < |plan|
      ensures id in plan[i].commentIds <==> i + 1 in index.Numbers() && id in IntsAt(answers[i + 1].comments, "id")
    {
      if i + 1 == TOMBSTONE {
        assert plan[i].commentIds == [];
      } else {
        EntryComments(plan[i], i + 1, index, answers, t, id);
      }
    }
  }

  lemma PlanCovers(plan: seq<Entry>, index: Index, answers: Answers, t: Tools)
    requires Agreed(index, answers, t) && IsPlan(plan, index, answers, t)
    ensures forall n | n in index.Numbers() :: n in answers && 1 <= n <= |plan|
    ensures TOMBSTONE !in index.Numbers() && ItemsFit(index, answers, t)
    ensures |plan| >= TOMBSTONE && plan[TOMBSTONE - 1].commentIds == []
  {
    hide AllIdentities, Compatible, AllParents, AllComments, Reconciled, EntryOf, IntsAt, SortedInts, Top, CommentsAreApart,
         IndexFits, ItemFits;
    assert TOMBSTONE in index.Numbers() + {TOMBSTONE};
    forall n | n in index.Numbers() ensures 1 <= n <= |plan| {
      assert n in index.Numbers() + {TOMBSTONE};
    }
  }

  /** What a capture writes is valid exactly when every item is known: the two passes share the rest. */
  lemma CaptureIsValidIff(s: Snapshot, index: Index, answers: Answers, downloads: Files, t: Tools)
    requires Capturable(index, answers, downloads, t) && IsCapture(s, index, answers, downloads, t)
    ensures IsValid(s, t) <==> AllKnown(index, answers, t)
  {
    hide ItemFits, ItemIsKnown, AllIdentities, Mapping, IsPlan, IsMapping, Reconciled;
  }
}
