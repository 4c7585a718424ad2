/** The checks of single captured payloads: unique ids and texts, and what the validation demands of an
    item beyond what its capture looked at. */
module MigrationChecks {
  import opened JsonValues
  import opened Wrappers
  import opened Numbers
  import opened Pagination
  import Texts

  type Bytes = seq<bv8>

  function OrNull(v: Option<Json>): Json {
    if v.Some? then v.value else JNull
  }

  // Ids.

  function IntsAt(items: seq<Json>, field: string): set<int> {
    set i | 0 <= i < |items| && items[i].IntAt(field).Some? :: items[i].IntAt(field).value
  }

  /** Every item carries an integer there, and no two the same. */
  ghost predicate UniqueInts(items: seq<Json>, field: string) {
    && (forall i | 0 <= i < |items| :: items[i].IntAt(field).Some?)
    && (forall i, j | 0 <= i < j < |items| :: items[i].IntAt(field) != items[j].IntAt(field))
  }

  /** `_unique`. */
  method Unique(items: seq<Json>, field: string) returns (r: Result<set<int>, ExportError>)
    ensures r.Ok? <==> UniqueInts(items, field)
    ensures r.Ok? ==> r.value == IntsAt(items, field)
  {
    hide IntsAt;
    var values: set<int> := {};
    NoInts(items, field);
    for i := 0 to |items|
      invariant forall k | 0 <= k < i :: items[k].IntAt(field).Some?
      invariant forall k, j | 0 <= k < j < i :: items[k].IntAt(field) != items[j].IntAt(field)
      invariant values == IntsAt(items[..i], field)
    {
      IntsSnoc(items, field, i);
      var value := items[i].IntAt(field);
      if value == None || value.value in values {
        return Err(ExportError);
      }
      values := values + {value.value};
    }
    assert items[..|items|] == items;
    return Ok(values);
  }

  lemma NoInts(items: seq<Json>, field: string)
    ensures IntsAt(items[..0], field) == {}
  {
  }

  lemma IntsSnoc(items: seq<Json>, field: string, i: nat)
    requires i < |items|
    ensures IntsAt(items[..i + 1], field)
            == IntsAt(items[..i], field) + if items[i].IntAt(field).Some? then {items[i].IntAt(field).value} else {}
    ensures forall x :: x in IntsAt(items[..i], field) <==> exists k | 0 <= k < i :: items[k].IntAt(field) == Some(x)
  {
    var all, front := items[..i + 1], items[..i];
    assert all == front + [items[i]];
    assert forall k | 0 <= k < i :: all[k] == front[k] == items[k];
  }

  /** Every item carries an accepted, non-empty text there, and no two the same. */
  ghost predicate UniqueTexts(items: seq<Json>, field: string, accepts: Json -> bool) {
    && (forall i | 0 <= i < |items| ::
          items[i].TextAt(field).Some? && items[i].TextAt(field).value != "" && accepts(JText(items[i].TextAt(field).value)))
    && (forall i, j | 0 <= i < j < |items| :: items[i].TextAt(field) != items[j].TextAt(field))
  }

  /** `_unique_text`. */
  method UniqueText(items: seq<Json>, field: string, accepts: Json -> bool) returns (ok: bool)
    ensures ok <==> UniqueTexts(items, field, accepts)
  {
    var values: set<string> := {};
    for i := 0 to |items|
      invariant forall k | 0 <= k < i ::
                  items[k].TextAt(field).Some? && items[k].TextAt(field).value != "" && accepts(JText(items[k].TextAt(field).value))
      invariant forall k, j | 0 <= k < j < i :: items[k].TextAt(field) != items[j].TextAt(field)
      invariant forall k | 0 <= k < i :: items[k].TextAt(field).value in values
      invariant forall v | v in values :: exists k | 0 <= k < i :: items[k].TextAt(field) == Some(v)
    {
      var value := items[i].TextAt(field);
      if value == None || value.value == "" || !accepts(JText(value.value)) || value.value in values {
        return false;
      }
      values := values + {value.value};
    }
    return true;
  }

  function Any(): Json -> bool {
    (_: Json) => true
  }

  function NumberOf(v: Json): Option<real> {
    match v
    case JBool(flag) => Some(if flag then 1.0 else 0.0)
    case JInt(n) => Some(n as real)
    case JReal(x) => Some(x)
    case _ => None
  }

  /** `==` of scalars: numbers and flags are compared by value. */
  predicate Equals(v: Json, w: Json) {
    v == w || (NumberOf(v).Some? && NumberOf(v) == NumberOf(w))
  }

  /** The listed item with the number, or null. */
  function ItemOf(items: seq<Json>, n: int): Json {
    if items == [] then JNull
    else if items[|items| - 1].IntAt("number") == Some(n) then items[|items| - 1]
    else ItemOf(items[..|items| - 1], n)
  }

  // Pull requests.

  datatype Metadata = Metadata(state: Json, merged: Json, mergedAt: Json, mergeCommitSha: Json, baseRef: Json,
                               baseSha: Json, headRef: Json, headSha: Json)

  function Part(pull: Json, key: string): Json {
    if pull.At(key).Some? && pull.At(key).value.JObject? then pull.At(key).value else JObject(map[])
  }

  /** `_pull_metadata`. */
  function PullMetadata(pull: Json): Metadata {
    var base, head := Part(pull, "base"), Part(pull, "head");
    Metadata(OrNull(pull.At("state")), OrNull(pull.At("merged")), OrNull(pull.At("merged_at")),
             OrNull(pull.At("merge_commit_sha")), OrNull(base.At("ref")), OrNull(base.At("sha")),
             OrNull(head.At("ref")), OrNull(head.At("sha")))
  }

  predicate IsName(v: Json) {
    v.JText? && v.text != ""
  }

  predicate MetadataIsKnown(m: Metadata, isSha: Json -> bool) {
    && m.merged.JBool? && IsName(m.baseRef) && IsName(m.headRef) && isSha(m.baseSha) && isSha(m.headSha)
    && (m.mergeCommitSha == JNull || isSha(m.mergeCommitSha))
  }

  /** `str` of a number. */
  function Str(n: int): string {
    if n < 0 then "-" + Texts.Decimal(-n) else Texts.Decimal(n)
  }

  /** The comments stored under a review; nothing when it is not a list. */
  function CommentsOf(comments: Json, id: int): Option<seq<Json>> {
    var stored := comments.At(Str(id));
    if stored.Some? && stored.value.JList? then Some(stored.value.items) else None
  }

  ghost predicate ReviewIsKnown(comments: Json, id: int) {
    CommentsOf(comments, id).Some? && UniqueInts(CommentsOf(comments, id).value, "id")
  }

  function ReviewCommentIds(comments: Json, id: int): set<int> {
    if CommentsOf(comments, id).Some? then IntsAt(CommentsOf(comments, id).value, "id") else {}
  }

  /** A list of comments for each review and for no other, no comment in two of them. */
  ghost predicate ReviewsAreKnown(reviews: seq<Json>, comments: Json) {
    var ids := IntsAt(reviews, "id");
    && UniqueInts(reviews, "id")
    && comments.JObject? && comments.fields.Keys == (set id | id in ids :: Str(id))
    && (forall id | id in ids :: ReviewIsKnown(comments, id))
    && (forall x, y | x in ids && y in ids && x != y :: ReviewCommentIds(comments, x) !! ReviewCommentIds(comments, y))
  }

  /** The comment lists of the reviews fit, and no comment is in two of them. */
  ghost predicate ListsAreApart(comments: Json, numbers: seq<int>) {
    && (forall k | 0 <= k < |numbers| :: ReviewIsKnown(comments, numbers[k]))
    && (forall k, j | 0 <= k < j < |numbers| :: ReviewCommentIds(comments, numbers[k]) !! ReviewCommentIds(comments, numbers[j]))
  }

  ghost predicate SeenIs(seen: set<int>, comments: Json, numbers: seq<int>) {
    forall x :: x in seen <==> exists k | 0 <= k < |numbers| :: x in ReviewCommentIds(comments, numbers[k])
  }

  lemma ListsSnoc(comments: Json, numbers: seq<int>, n: int, seen: set<int>)
    requires SeenIs(seen, comments, numbers)
    ensures ListsAreApart(comments, numbers + [n]) <==>
            ListsAreApart(comments, numbers) && ReviewIsKnown(comments, n) && seen !! ReviewCommentIds(comments, n)
    ensures SeenIs(seen + ReviewCommentIds(comments, n), comments, numbers + [n])
  {
    hide ReviewIsKnown, ReviewCommentIds;
    var all := numbers + [n];
    assert all[|numbers|] == n && forall k | 0 <= k < |numbers| :: all[k] == numbers[k];
    if seen !! ReviewCommentIds(comments, n) {
      forall k | 0 <= k < |numbers| ensures ReviewCommentIds(comments, numbers[k]) !! ReviewCommentIds(comments, n) {
        assert forall x | x in ReviewCommentIds(comments, numbers[k]) :: x in seen;
      }
    }
    if ListsAreApart(comments, all) {
      forall x | x in seen ensures x !in ReviewCommentIds(comments, n) {
        var k :| 0 <= k < |numbers| && x in ReviewCommentIds(comments, numbers[k]);
        assert ReviewCommentIds(comments, all[k]) !! ReviewCommentIds(comments, all[|numbers|]);
      }
      ListsPrefixOf(comments, numbers, n);
    }
  }

  lemma ListsPrefixOf(comments: Json, numbers: seq<int>, n: int)
    requires ListsAreApart(comments, numbers + [n])
    ensures ListsAreApart(comments, numbers) && ReviewIsKnown(comments, n)
  {
    hide ReviewIsKnown, ReviewCommentIds;
    var all := numbers + [n];
    assert all[|numbers|] == n && forall k | 0 <= k < |numbers| :: all[k] == numbers[k];
  }

  lemma ListsPrefix(comments: Json, numbers: seq<int>, i: nat)
    requires i <= |numbers| && ListsAreApart(comments, numbers)
    ensures ListsAreApart(comments, numbers[..i])
  {
    hide ReviewIsKnown, ReviewCommentIds;
  }

  lemma NothingSeen(comments: Json)
    ensures ListsAreApart(comments, []) && SeenIs({}, comments, [])
  {
  }

  /** The loop over the review ids. */
  method CheckLists(comments: Json, numbers: seq<int>) returns (ok: bool)
    ensures ok <==> ListsAreApart(comments, numbers)
  {
    hide ListsAreApart, SeenIs, UniqueInts, IntsAt, Str;
    var seen: set<int> := {};
    NothingSeen(comments);
    assert numbers[..0] == [];
    for i := 0 to |numbers|
      invariant ListsAreApart(comments, numbers[..i]) && SeenIs(seen, comments, numbers[..i])
    {
      assert numbers[..i + 1] == numbers[..i] + [numbers[i]];
      ListsSnoc(comments, numbers[..i], numbers[i], seen);
      if ListsAreApart(comments, numbers) {
        ListsPrefix(comments, numbers, i + 1);
      }
      var stored := CommentsOf(comments, numbers[i]);
      if stored == None {
        return false;
      }
      var more := Unique(stored.value, "id");
      if more.Err? || !(seen !! more.value) {
        return false;
      }
      seen := seen + more.value;
    }
    assert numbers[..|numbers|] == numbers;
    return true;
  }

  lemma ApartByIndex(comments: Json, ids: set<int>, numbers: seq<int>)
    requires forall id :: id in numbers <==> id in ids
    requires forall k, j | 0 <= k < j < |numbers| :: numbers[k] < numbers[j]
    ensures ListsAreApart(comments, numbers) <==>
            && (forall id | id in ids :: ReviewIsKnown(comments, id))
            && (forall x, y | x in ids && y in ids && x != y :: ReviewCommentIds(comments, x) !! ReviewCommentIds(comments, y))
  {
    hide ReviewIsKnown, ReviewCommentIds;
    if ListsAreApart(comments, numbers) {
      forall x, y | x in ids && y in ids && x != y ensures ReviewCommentIds(comments, x) !! ReviewCommentIds(comments, y) {
        var k :| 0 <= k < |numbers| && numbers[k] == x;
        var j :| 0 <= j < |numbers| && numbers[j] == y;
        assert k < j || j < k;
      }
    }
    forall k | 0 <= k < |numbers| ensures numbers[k] in ids {
    }
  }

  method CheckReviews(reviews: seq<Json>, comments: Json) returns (ok: bool)
    ensures ok <==> ReviewsAreKnown(reviews, comments)
  {
    hide IntsAt, UniqueInts, Str, ListsAreApart, ReviewIsKnown, ReviewCommentIds;
    var ids := Unique(reviews, "id");
    if ids.Err? || !comments.JObject? || comments.fields.Keys != (set id | id in ids.value :: Str(id)) {
      return false;
    }
    var numbers := SortedInts(ids.value);
    ApartByIndex(comments, ids.value, numbers);
    ok := CheckLists(comments, numbers);
  }

  /** The answer of an endpoint that the source does not have. */
  predicate IsUnavailable(v: Json) {
    v.JObject? && v.fields.Keys == {"available", "reason"}
    && Equals(v.fields["available"], JBool(false)) && v.fields["reason"] == JText("endpoint-unavailable")
  }

  predicate StatusIsKnown(status: Json, headSha: Json) {
    IsUnavailable(status) || (status.TextAt("state").Some? && OrNull(status.At("sha")) == headSha)
  }

  /** A representation that is there is not empty. */
  predicate HasContent(payload: Option<Bytes>) {
    payload.Some? ==> |payload.value| > 0
  }

  /** The payloads of one pull request as the validation demands them. */
  ghost predicate PullIsKnown(pull: Json, commits: seq<Json>, files: seq<Json>, reviews: seq<Json>, reviewComments: Json, status: Json,
                              diff: Option<Bytes>, patch: Option<Bytes>, isSha: Json -> bool)
  {
    && MetadataIsKnown(PullMetadata(pull), isSha)
    && UniqueTexts(commits, "sha", isSha) && UniqueTexts(files, "filename", Any())
    && ReviewsAreKnown(reviews, reviewComments) && StatusIsKnown(status, PullMetadata(pull).headSha)
    && HasContent(diff) && HasContent(patch)
  }

  method CheckPull(pull: Json, commits: seq<Json>, files: seq<Json>, reviews: seq<Json>, reviewComments: Json, status: Json,
                   diff: Option<Bytes>, patch: Option<Bytes>, isSha: Json -> bool) returns (ok: bool)
    ensures ok <==> PullIsKnown(pull, commits, files, reviews, reviewComments, status, diff, patch, isSha)
  {
    hide *;
    PullParts(pull, commits, files, reviews, reviewComments, status, diff, patch, isSha);
    var metadata := PullMetadata(pull);
    var hashed := UniqueText(commits, "sha", isSha);
    var named := UniqueText(files, "filename", Any());
    var reviewed := CheckReviews(reviews, reviewComments);
    return MetadataIsKnown(metadata, isSha) && hashed && named && reviewed && StatusIsKnown(status, metadata.headSha)
           && HasContent(diff) && HasContent(patch);
  }

  lemma PullParts(pull: Json, commits: seq<Json>, files: seq<Json>, reviews: seq<Json>, reviewComments: Json, status: Json,
                  diff: Option<Bytes>, patch: Option<Bytes>, isSha: Json -> bool)
    ensures PullIsKnown(pull, commits, files, reviews, reviewComments, status, diff, patch, isSha) <==>
            && MetadataIsKnown(PullMetadata(pull), isSha) && UniqueTexts(commits, "sha", isSha)
            && UniqueTexts(files, "filename", Any()) && ReviewsAreKnown(reviews, reviewComments)
            && StatusIsKnown(status, PullMetadata(pull).headSha) && HasContent(diff) && HasContent(patch)
  {
    hide MetadataIsKnown, PullMetadata, UniqueTexts, ReviewsAreKnown, StatusIsKnown, HasContent, Any;
  }
}
