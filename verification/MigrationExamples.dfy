/** A concrete source whose capture succeeds and whose validation then fails. */
module MigrationExamples {
  import opened JsonValues
  import opened Wrappers
  import opened Numbers
  import opened MigrationAssets
  import opened MigrationChecks
  import opened MigrationCapture

  function Document(n: int, id: int): Json {
    JObject(map["number" := JInt(n), "id" := JInt(id), "state" := JText("open")])
  }

  lemma DocumentFields(n: int, id: int)
    ensures Document(n, id).IntAt("number") == Some(n) && Document(n, id).IntAt("id") == Some(id)
    ensures Document(n, id).At("labels") == None && OrNull(Document(n, id).At("id")) == JInt(id)
    ensures Candidates(Document(n, id)) == {}
  {
    assert |"number"| == 6 && |"id"| == 2 && |"state"| == 5;
    var d := Document(n, id);
    assert d.fields.Keys == {"number", "id", "state"};
    assert "uuid" !in d.fields && "labels" !in d.fields;
  }

  /** The issues 1 to 85, each indexed under its number as its id. */
  function Listed(): Index {
    Index([], seq(TOMBSTONE - 1, i => Document(i + 1, i + 1)), [], [])
  }

  /** Their details, each with the id 0. */
  function Misnumbered(): Answers {
    map n | 1 <= n < TOMBSTONE ::
      Answer(Document(n, 0), [], [], JNull, [], [], [], JNull, JNull, None, None)
  }

  function Blind(): Tools {
    Tools("", "", Naming((_: string) => false, (_: string) => None, (_: string) => None), (_: Json) => false,
          (_: Json) => None, (_: Json) => None, (_: Bytes) => "")
  }

  lemma ListedNumbers()
    ensures IndexFits(Listed()) && Listed().Pulls() == {}
    ensures forall n :: n in Listed().Numbers() <==> 1 <= n < TOMBSTONE
    ensures forall n :: n in Listed().Numbers() <==> n in Listed().Issues()
  {
    hide Document;
    var issues := Listed().issues;
    forall i | 0 <= i < |issues| ensures issues[i].IntAt("number") == Some(i + 1) && issues[i].IntAt("id") == Some(i + 1) {
      DocumentFields(i + 1, i + 1);
    }
    forall n | 1 <= n < TOMBSTONE ensures n in Listed().Issues() {
      assert issues[n - 1].IntAt("number") == Some(n);
    }
  }

  lemma GreatestOf(all: set<int>)
    requires forall n :: n in all <==> 1 <= n <= TOMBSTONE
    ensures SortedInts(all) != [] && SortedInts(all)[|SortedInts(all)| - 1] == TOMBSTONE
  {
    hide SortedInts;
    var sorted := SortedInts(all);
    assert TOMBSTONE in sorted;
    var k :| 0 <= k < |sorted| && sorted[k] == TOMBSTONE;
    assert sorted[|sorted| - 1] in sorted;
  }

  lemma BelowTombstone(numbers: set<int>)
    requires forall n :: n in numbers <==> 1 <= n < TOMBSTONE
    ensures TOMBSTONE !in numbers && IsContiguous(numbers)
  {
    hide SortedInts;
    GreatestOf(numbers + {TOMBSTONE});
  }

  lemma NothingReferred(n: int, id: int)
    ensures References(ItemSources(Answer(Document(n, id), [], [], JNull, [], [], [], JNull, JNull, None, None))) == {}
  {
    hide Document;
    DocumentFields(n, id);
  }

  lemma MisnumberedFits(n: int)
    requires n in Listed().Numbers()
    ensures n in Misnumbered() && ItemFits(n, Listed().Kind(n), Misnumbered()[n], Blind())
    ensures IdentitiesOf(Listed().Kind(n), Misnumbered()[n], Blind()) == {} && Misnumbered()[n].comments == []
  {
    hide Document, Listed, References;
    ListedNumbers();
    DocumentFields(n, 0);
    NothingReferred(n, 0);
    assert Listed().Kind(n) == Issue;
    var a := Misnumbered()[n];
    assert Sources(Issue, a) == ItemSources(a);
  }

  lemma {:induction false} NothingStored(numbers: seq<int>)
    requires forall n | n in numbers :: n in Listed().Numbers() && n in Misnumbered()
    ensures AllComments(numbers, Misnumbered()) == map[] && AllParents(numbers, Listed(), Misnumbered(), Blind()) == map[]
  {
    hide Listed, Misnumbered, IntsAt;
    if numbers != [] {
      var n := numbers[|numbers| - 1];
      NothingStored(numbers[..|numbers| - 1]);
      MisnumberedFits(n);
    }
  }

  lemma NothingMet(numbers: seq<int>)
    requires forall n | n in numbers :: n in Listed().Numbers() && n in Misnumbered()
    ensures AllIdentities(numbers, Listed(), Misnumbered(), Blind()) == {}
  {
    hide Listed, Misnumbered, IdentitiesOf, IntsAt;
    forall n | n in numbers ensures IdentitiesOf(Listed().Kind(n), Misnumbered()[n], Blind()) == {} {
      MisnumberedFits(n);
    }
  }

  lemma MisnumberedItems()
    ensures ItemsFit(Listed(), Misnumbered(), Blind()) && CommentsAreApart(Listed(), Misnumbered())
  {
    hide Listed, Misnumbered, ItemFits, Blind, SortedInts;
    forall n | n in Listed().Numbers()
      ensures n in Misnumbered() && ItemFits(n, Listed().Kind(n), Misnumbered()[n], Blind()) && Misnumbered()[n].comments == []
    {
      MisnumberedFits(n);
    }
  }

  lemma MisnumberedTogether(numbers: seq<int>)
    requires forall n | n in numbers :: n in Listed().Numbers() && n in Misnumbered()
    ensures AllIdentities(numbers, Listed(), Misnumbered(), Blind()) == {}
    ensures Reconciled(Listed().comments, AllComments(numbers, Misnumbered()), AllParents(numbers, Listed(), Misnumbered(), Blind()), Blind())
  {
    hide AllComments, AllParents, AllIdentities, Misnumbered, Blind;
    NothingStored(numbers);
    NothingMet(numbers);
  }

  lemma MisnumberedIsCaptured()
    ensures Capturable(Listed(), Misnumbered(), map[], Blind())
  {
    hide Listed, Misnumbered, ItemsFit, AllComments, AllParents, AllIdentities, IsContiguous, IndexFits, Blind, IntsAt, Reconciled,
         CommentsAreApart, SortedInts;
    ListedNumbers();
    BelowTombstone(Listed().Numbers());
    MisnumberedItems();
    FitAreListed();
    MisnumberedTogether(SortedInts(Listed().Numbers()));
    assert 1 in Listed().Numbers();
  }

  lemma FitAreListed()
    requires ItemsFit(Listed(), Misnumbered(), Blind())
    ensures forall n | n in Listed().Numbers() :: n in Misnumbered()
  {
    hide Listed, Misnumbered, ItemFits, Blind;
  }

  /** An issue whose detail has another id than the index is captured, and is not known to the
      validation. */
  lemma CapturedButInvalid()
    ensures exists index, answers, downloads, t ::
              Capturable(index, answers, downloads, t) && !AllKnown(index, answers, t)
  {
    hide Capturable, IntsAt, Document;
    MisnumberedIsCaptured();
    ListedNumbers();
    assert 1 in Listed().Numbers();
    FirstIsUnknown();
    assert forall n | n in Listed().Numbers() :: n in Misnumbered();
    assert !AllKnown(Listed(), Misnumbered(), Blind());
  }

  lemma FirstIsUnknown()
    ensures !ItemIsKnown(Listed().Item(1), Listed().Kind(1), Misnumbered()[1], Blind())
  {
    hide Document, IntsAt, Identify;
    ListedNumbers();
    DocumentFields(1, 0);
    DocumentFields(1, 1);
    FirstItem(Listed().issues, TOMBSTONE - 1);
  }

  lemma {:induction false} FirstItem(issues: seq<Json>, k: nat)
    requires 1 <= k == |issues| && forall i | 0 <= i < k :: issues[i] == Document(i + 1, i + 1)
    ensures ItemOf(issues, 1) == Document(1, 1)
  {
    hide Document;
    DocumentFields(k, k);
    if k > 1 {
      FirstItem(issues[..k - 1], k - 1);
    }
  }
}
