/** The two passes over a collection of edges: validation, which stops at the first fault, and
    diagnosis, which reports every fault. */
module RelationshipPasses {
  import opened Wrappers
  import opened Ordering
  import opened Digraphs
  import opened Relationships
  import CycleSearch

  type Triplet = (string, RelationType, string)

  /** A diagnostic without its prose. */
  datatype Diagnostic =
    | RowRejected(index: nat, code: Rejection)
    | Duplicate(triplet: Triplet, copies: nat)
    | ManyParents(child: string, parents: set<string>)
    | ManyTargets(runbook: string, responsible: set<string>)
    | ManyPrimaries(source: string, relationType: RelationType, targets: seq<string>)
    | CycleFound(channel: Channel, walk: seq<string>)

  function Triplets(rows: seq<Row>): (r: seq<Triplet>)
    ensures |r| == |rows| && forall i | 0 <= i < |rows| :: r[i] == rows[i].Triplet()
  {
    seq(|rows|, i requires 0 <= i < |rows| => rows[i].Triplet())
  }

  function Copies(s: seq<Triplet>, t: Triplet): nat {
    if s == [] then 0 else Copies(s[..|s| - 1], t) + (if s[|s| - 1] == t then 1 else 0)
  }

  /** The rows that pass on their own, in order. */
  function ValidRows(rows: seq<Row>, endpoints: Endpoints): (r: seq<Row>)
    ensures RowsValid(r, endpoints)
    ensures RowsValid(rows, endpoints) ==> r == rows
  {
    hide CheckRow;
    if rows == [] then []
    else
      var front := ValidRows(rows[..|rows| - 1], endpoints);
      if CheckRow(rows[|rows| - 1], endpoints).Ok? then front + [rows[|rows| - 1]] else front
  }

  // What the graph part reports about a list of valid rows.

  ghost predicate ReportsTargets(d: set<Diagnostic>, g: Graph) {
    forall k, s :: ManyTargets(k, s) in d <==> k in g && s == g[k] && |s| > 1
  }

  ghost predicate ReportsPrimaries(d: set<Diagnostic>, rows: seq<Row>) {
    forall k, t, s :: ManyPrimaries(k, t, s) in d <==> s == Primaries(rows, k, t) && |s| > 1
  }

  /** One simple cycle per cyclic graph, none for an acyclic one. */
  ghost predicate ReportsCycle(d: set<Diagnostic>, channel: Channel, g: Graph) {
    && (forall w :: CycleFound(channel, w) in d ==> SimpleCycle(g, w))
    && (forall w, v :: CycleFound(channel, w) in d && CycleFound(channel, v) in d ==> w == v)
    && ((forall w :: CycleFound(channel, w) !in d) <==> Acyclic(g))
  }

  ghost predicate IsGraphDiagnosis(d: set<Diagnostic>, rows: seq<Row>, endpoints: Endpoints) {
    && ReportsTargets(d, Linked(Responsibility, rows, endpoints))
    && ReportsPrimaries(d, rows)
    && ReportsCycle(d, Attachment, Linked(Attachment, rows, endpoints))
    && ReportsCycle(d, Uplink, Linked(Uplink, rows, endpoints))
    && (forall x | x in d :: x.ManyTargets? || x.ManyPrimaries? || (x.CycleFound? && x.channel in {Attachment, Uplink}))
  }

  // What the whole edge part reports.

  ghost predicate ReportsRows(d: set<Diagnostic>, rows: seq<Row>, endpoints: Endpoints) {
    forall i: nat, c :: RowRejected(i, c) in d <==> i < |rows| && CheckRow(rows[i], endpoints) == Err(c)
  }

  ghost predicate ReportsDuplicates(d: set<Diagnostic>, s: seq<Triplet>) {
    forall t, n :: Duplicate(t, n) in d <==> n == Copies(s, t) && n > 1
  }

  ghost predicate ReportsParents(d: set<Diagnostic>, g: Graph) {
    forall k, s :: ManyParents(k, s) in d <==> k in g && s == g[k] && |s| > 1
  }

  ghost predicate IsDiagnosis(d: set<Diagnostic>, rows: seq<Row>, endpoints: Endpoints) {
    var valid := ValidRows(rows, endpoints);
    && ReportsRows(d, rows, endpoints)
    && ReportsDuplicates(d, Triplets(valid))
    && ReportsParents(d, Linked(Placement, valid, endpoints))
    && ReportsTargets(d, Linked(Responsibility, valid, endpoints))
    && ReportsPrimaries(d, valid)
    && ReportsCycle(d, Attachment, Linked(Attachment, valid, endpoints))
    && ReportsCycle(d, Uplink, Linked(Uplink, valid, endpoints))
    && (forall x | x in d && x.CycleFound? :: x.channel in {Attachment, Uplink})
  }

  // The loops.

  /** The four dictionaries, filled row by row. */
  method Collect(channel: Channel, rows: seq<Row>, endpoints: Endpoints) returns (g: Graph)
    ensures g == Linked(channel, rows, endpoints)
  {
    g := map[];
    for i := 0 to |rows|
      invariant g == Linked(channel, rows[..i], endpoints)
    {
      assert rows[..i + 1][..i] == rows[..i];
      if Selects(channel, rows[i], endpoints) {
        g := AddEdge(g, KeyOf(channel, rows[i]), ValueOf(channel, rows[i]));
      }
    }
    assert rows[..|rows|] == rows;
  }

  /** `primary_by_source`, keyed by source and type. */
  method CollectPrimaries(rows: seq<Row>) returns (m: map<(string, RelationType), seq<string>>)
    ensures forall k, t :: Primaries(rows, k, t) == if (k, t) in m then m[(k, t)] else []
  {
    m := map[];
    for i := 0 to |rows|
      invariant forall k, t :: Primaries(rows[..i], k, t) == if (k, t) in m then m[(k, t)] else []
    {
      var row := rows[i];
      assert rows[..i + 1][..i] == rows[..i];
      ghost var before := m;
      if IsPrimary(row, row.fromRef, row.relationType) {
        var key := (row.fromRef, row.relationType);
        m := m[key := (if key in m then m[key] else []) + [row.toRef]];
      }
      forall k, t ensures Primaries(rows[..i + 1], k, t) == if (k, t) in m then m[(k, t)] else [] {
        assert Primaries(rows[..i], k, t) == if (k, t) in before then before[(k, t)] else [];
      }
    }
    assert rows[..|rows|] == rows;
  }

  /** Keys whose set has more than one member. */
  function Crowded(g: Graph): set<string> {
    set k | k in g && |g[k]| > 1
  }

  /** The loop of both reports, over the sorted keys. */
  method CollectCrowded(g: Graph) returns (crowded: set<string>)
    ensures crowded == Crowded(g)
  {
    hide StrLe, SortedSet;
    crowded := {};
    var keys := SortedSet(g.Keys);
    for i := 0 to |keys|
      invariant crowded == set k | k in keys[..i] && k in g && |g[k]| > 1
    {
      assert keys[i] in keys;
      assert keys[..i + 1] == keys[..i] + [keys[i]];
      if |g[keys[i]]| > 1 {
        crowded := crowded + {keys[i]};
      }
    }
    assert keys[..|keys|] == keys;
  }

  method ReportTargets(g: Graph) returns (d: set<Diagnostic>)
    ensures ReportsTargets(d, g) && forall x | x in d :: x.ManyTargets?
  {
    var crowded := CollectCrowded(g);
    d := set k | k in crowded :: ManyTargets(k, g[k]);
  }

  method ReportParents(g: Graph) returns (d: set<Diagnostic>)
    ensures ReportsParents(d, g) && forall x | x in d :: x.ManyParents?
  {
    var crowded := CollectCrowded(g);
    d := set k | k in crowded :: ManyParents(k, g[k]);
  }

  method ReportPrimaries(rows: seq<Row>) returns (d: set<Diagnostic>)
    ensures ReportsPrimaries(d, rows) && forall x | x in d :: x.ManyPrimaries?
  {
    var m := CollectPrimaries(rows);
    d := set k | k in m.Keys && |m[k]| > 1 :: ManyPrimaries(k.0, k.1, m[k]);
    forall k, t, s ensures ManyPrimaries(k, t, s) in d <==> s == Primaries(rows, k, t) && |s| > 1 {
      if s == Primaries(rows, k, t) && |s| > 1 {
        assert (k, t) in m.Keys;
      }
    }
  }

  method ReportCycle(channel: Channel, g: Graph) returns (d: set<Diagnostic>)
    ensures ReportsCycle(d, channel, g) && forall x | x in d :: x.CycleFound? && x.channel == channel
  {
    var cycle := CycleSearch.FirstCycle(g);
    d := if cycle.Some? then {CycleFound(channel, cycle.value)} else {};
    if cycle.Some? {
      assert CycleFound(channel, cycle.value) in d;
    }
  }

  /** `relationship_graph_diagnostics`, for rows that are valid on their own. */
  method GraphDiagnostics(rows: seq<Row>, endpoints: Endpoints) returns (d: set<Diagnostic>)
    requires RowsValid(rows, endpoints)
    ensures IsGraphDiagnosis(d, rows, endpoints)
  {
    hide Primaries, Linked, RowsValid;
    var responsibilities := Collect(Responsibility, rows, endpoints);
    var attachments := Collect(Attachment, rows, endpoints);
    var uplinks := Collect(Uplink, rows, endpoints);
    var targets := ReportTargets(responsibilities);
    var primaries := ReportPrimaries(rows);
    var loops := ReportCycle(Attachment, attachments);
    var uploops := ReportCycle(Uplink, uplinks);
    d := targets + primaries + loops + uploops;
    assert ReportsTargets(d, responsibilities);
    assert ReportsPrimaries(d, rows);
    assert ReportsCycle(d, Attachment, attachments) by {
      assert forall w :: CycleFound(Attachment, w) in d <==> CycleFound(Attachment, w) in loops;
    }
    assert ReportsCycle(d, Uplink, uplinks) by {
      assert forall w :: CycleFound(Uplink, w) in d <==> CycleFound(Uplink, w) in uploops;
    }
  }

  /** `Counter(triplets)`. */
  method CountTriplets(s: seq<Triplet>) returns (counts: map<Triplet, nat>)
    ensures forall t :: Copies(s, t) == if t in counts then counts[t] else 0
    ensures forall t | t in counts :: t in s
  {
    counts := map[];
    for i := 0 to |s|
      invariant forall t :: Copies(s[..i], t) == if t in counts then counts[t] else 0
      invariant forall t | t in counts :: t in s
    {
      assert s[..i + 1][..i] == s[..i];
      counts := counts[s[i] := (if s[i] in counts then counts[s[i]] else 0) + 1];
    }
    assert s[..|s|] == s;
  }

  method ReportDuplicates(s: seq<Triplet>) returns (d: set<Diagnostic>)
    ensures ReportsDuplicates(d, s) && forall x | x in d :: x.Duplicate?
  {
    hide Copies;
    var counts := CountTriplets(s);
    d := set t | t in counts.Keys && counts[t] > 1 :: Duplicate(t, counts[t]);
    forall t, n ensures Duplicate(t, n) in d <==> n == Copies(s, t) && n > 1 {
      if n == Copies(s, t) && n > 1 {
        assert t in counts.Keys;
      }
    }
  }

  method ReportRows(rows: seq<Row>, endpoints: Endpoints) returns (d: set<Diagnostic>, valid: seq<Row>)
    ensures ReportsRows(d, rows, endpoints) && forall x | x in d :: x.RowRejected?
    ensures valid == ValidRows(rows, endpoints)
  {
    hide CheckRow;
    d, valid := {}, [];
    for i := 0 to |rows|
      invariant valid == ValidRows(rows[..i], endpoints)
      invariant forall j: nat, c :: RowRejected(j, c) in d <==> j < i && CheckRow(rows[j], endpoints) == Err(c)
      invariant forall x | x in d :: x.RowRejected?
    {
      assert rows[..i + 1][..i] == rows[..i];
      var checked := CheckRow(rows[i], endpoints);
      if checked.Err? {
        d := d + {RowRejected(i, checked.error)};
      } else {
        valid := valid + [rows[i]];
      }
    }
    assert rows[..|rows|] == rows;
  }

  lemma {:induction false} CopiesCount(s: seq<Triplet>, t: Triplet)
    ensures Copies(s, t) > 0 <==> exists i :: 0 <= i < |s| && s[i] == t
    ensures Copies(s, t) > 1 <==> exists i, j :: 0 <= i < j < |s| && s[i] == t && s[j] == t
  {
    if s != [] {
      var front, n := s[..|s| - 1], |s| - 1;
      CopiesCount(front, t);
      assert forall i | 0 <= i < n :: front[i] == s[i];
      if i :| 0 <= i < n && s[i] == t {
        assert front[i] == t;
        if j :| i < j < n && s[j] == t {
          assert front[j] == t;
        }
      }
    }
  }

  lemma CopiesMean(rows: seq<Row>, t: Triplet)
    ensures Copies(Triplets(rows), t) > 0 <==> exists i :: 0 <= i < |rows| && rows[i].Triplet() == t
    ensures Copies(Triplets(rows), t) > 1 <==>
            exists i, j :: 0 <= i < j < |rows| && rows[i].Triplet() == t && rows[j].Triplet() == t
  {
    hide Copies, Triplets;
    var s := Triplets(rows);
    CopiesCount(s, t);
    if i, j :| 0 <= i < j < |rows| && rows[i].Triplet() == t && rows[j].Triplet() == t {
      assert s[i] == t && s[j] == t;
    }
    if i :| 0 <= i < |rows| && rows[i].Triplet() == t {
      assert s[i] == t;
    }
  }

  lemma DistinctIffOneCopy(rows: seq<Row>)
    ensures DistinctTriplets(rows) <==> forall t :: Copies(Triplets(rows), t) <= 1
  {
    hide Copies, Triplets;
    forall t | Copies(Triplets(rows), t) > 1 ensures !DistinctTriplets(rows) {
      CopiesMean(rows, t);
    }
    if !DistinctTriplets(rows) {
      var i, j :| 0 <= i < j < |rows| && rows[i].Triplet() == rows[j].Triplet();
      CopiesMean(rows, rows[i].Triplet());
    }
  }

  /** `validate_relationship_collection` raises the first of these that applies. */
  ghost function FirstFault(rows: seq<Row>, endpoints: Endpoints): Rejection
    requires !Acceptable(rows, endpoints)
  {
    if !RowsValid(rows, endpoints) then FirstRowFault(rows, endpoints)
    else if !DistinctTriplets(rows) then DuplicateRelationship
    else if !SingleValued(Placement, rows, endpoints) then MultiplePlacementParents
    else if !SinglePrimary(rows) then MultiplePrimaryRelationships
    else if !SingleValued(Responsibility, rows, endpoints) then MultipleResponsibilityTargets
    else RelationshipCycle
  }

  ghost function FirstRowFault(rows: seq<Row>, endpoints: Endpoints): Rejection
    requires !RowsValid(rows, endpoints)
  {
    hide CheckRow;
    var front := rows[..|rows| - 1];
    if RowsValid(front, endpoints) then CheckRow(rows[|rows| - 1], endpoints).error else FirstRowFault(front, endpoints)
  }

  lemma {:induction false} FirstRowFaultIs(rows: seq<Row>, endpoints: Endpoints, i: nat)
    requires i < |rows| && CheckRow(rows[i], endpoints).Err? && RowsValid(rows[..i], endpoints)
    ensures !RowsValid(rows, endpoints) && FirstRowFault(rows, endpoints) == CheckRow(rows[i], endpoints).error
  {
    hide CheckRow;
    var front := rows[..|rows| - 1];
    if i < |front| {
      assert front[..i] == rows[..i];
      FirstRowFaultIs(front, endpoints, i);
    } else {
      assert front == rows[..i];
    }
  }

  lemma CrowdedMeans(channel: Channel, rows: seq<Row>, endpoints: Endpoints)
    ensures Crowded(Linked(channel, rows, endpoints)) == {} <==> SingleValued(channel, rows, endpoints)
  {
    hide Linked, SingleValued;
    SingleValuedIff(channel, rows, endpoints);
    var g := Linked(channel, rows, endpoints);
    if Crowded(g) != {} {
      var k :| k in Crowded(g);
      assert |Successors(g, k)| > 1;
    }
    if !SingleValued(channel, rows, endpoints) {
      var k :| |Successors(g, k)| > 1;
      assert k in Crowded(g);
    }
  }

  // A graph diagnosis names a rule exactly when the rule is broken.

  lemma PrimaryPart(d: set<Diagnostic>, rows: seq<Row>)
    requires ReportsPrimaries(d, rows)
    ensures (exists x | x in d :: x.ManyPrimaries?) <==> !SinglePrimary(rows)
  {
    hide Primaries, SinglePrimary;
    SinglePrimaryIff(rows);
    if !SinglePrimary(rows) {
      var k, t :| |Primaries(rows, k, t)| > 1;
      assert ManyPrimaries(k, t, Primaries(rows, k, t)) in d;
    }
    if x :| x in d && x.ManyPrimaries? {
      assert ManyPrimaries(x.source, x.relationType, x.targets) in d;
      assert |Primaries(rows, x.source, x.relationType)| > 1;
    }
  }

  lemma TargetPart(d: set<Diagnostic>, rows: seq<Row>, endpoints: Endpoints)
    requires ReportsTargets(d, Linked(Responsibility, rows, endpoints))
    ensures (exists x | x in d :: x.ManyTargets?) <==> !SingleValued(Responsibility, rows, endpoints)
  {
    hide Linked, SingleValued;
    CrowdedMeans(Responsibility, rows, endpoints);
    var g := Linked(Responsibility, rows, endpoints);
    if Crowded(g) != {} {
      var k :| k in Crowded(g);
      assert ManyTargets(k, g[k]) in d;
    }
    if x :| x in d && x.ManyTargets? {
      assert ManyTargets(x.runbook, x.responsible) in d;
      assert x.runbook in Crowded(g);
    }
  }

  lemma CyclePart(d: set<Diagnostic>, attachments: Graph, uplinks: Graph)
    requires ReportsCycle(d, Attachment, attachments) && ReportsCycle(d, Uplink, uplinks)
    requires forall x | x in d && x.CycleFound? :: x.channel in {Attachment, Uplink}
    ensures (exists x | x in d :: x.CycleFound?) <==> !(Acyclic(attachments) && Acyclic(uplinks))
  {
    hide Acyclic, SimpleCycle;
    if x :| x in d && x.CycleFound? {
      assert CycleFound(x.channel, x.walk) in d;
    }
  }

  /** `validate_relationship_collection`. */
  method ValidateCollection(rows: seq<Row>, endpoints: Endpoints) returns (r: Result<(), Rejection>)
    ensures r.Ok? <==> Acceptable(rows, endpoints)
    ensures r.Err? ==> r.error == FirstFault(rows, endpoints)
  {
    hide CheckRow, Linked, SingleValued, DistinctTriplets, SinglePrimary, Acyclic, Copies, Primaries,
         ReportsTargets, ReportsPrimaries, ReportsCycle, FirstRowFault;
    for i := 0 to |rows|
      invariant RowsValid(rows[..i], endpoints)
    {
      var checked := CheckRow(rows[i], endpoints);
      if checked.Err? {
        FirstRowFaultIs(rows, endpoints, i);
        return Err(checked.error);
      }
    }
    assert rows[..|rows|] == rows;
    var parents := Collect(Placement, rows, endpoints);
    var counts := CountTriplets(Triplets(rows));
    DistinctIffOneCopy(rows);
    CrowdedMeans(Placement, rows, endpoints);
    if t :| t in counts.Keys && counts[t] > 1 {
      assert Copies(Triplets(rows), t) > 1;
      return Err(DuplicateRelationship);
    }
    assert DistinctTriplets(rows) by {
      forall t ensures Copies(Triplets(rows), t) <= 1 {
        assert t in counts ==> t in counts.Keys;
      }
    }
    if Crowded(parents) != {} {
      return Err(MultiplePlacementParents);
    }
    var d := GraphDiagnostics(rows, endpoints);
    PrimaryPart(d, rows);
    TargetPart(d, rows, endpoints);
    CyclePart(d, Linked(Attachment, rows, endpoints), Linked(Uplink, rows, endpoints));
    // The first diagnostic in the order of the code names.
    if exists x | x in d :: x.ManyPrimaries? {
      r := Err(MultiplePrimaryRelationships);
    } else if exists x | x in d :: x.ManyTargets? {
      r := Err(MultipleResponsibilityTargets);
    } else if exists x | x in d :: x.CycleFound? {
      r := Err(RelationshipCycle);
    } else {
      r := Ok(());
    }
  }

  /** The edge part of `diagnose_relationship_integrity`. */
  method Diagnose(rows: seq<Row>, endpoints: Endpoints) returns (d: set<Diagnostic>)
    ensures IsDiagnosis(d, rows, endpoints)
  {
    hide ReportsRows, ReportsDuplicates, ReportsParents, ReportsTargets, ReportsPrimaries, ReportsCycle, Linked;
    var rejected, valid := ReportRows(rows, endpoints);
    var graph := GraphDiagnostics(valid, endpoints);
    var duplicates := ReportDuplicates(Triplets(valid));
    var placements := Collect(Placement, valid, endpoints);
    var parents := ReportParents(placements);
    d := rejected + graph + duplicates + parents;
    Assemble(d, rejected, graph, duplicates, parents, rows, endpoints);
  }

  lemma Assemble(d: set<Diagnostic>, rejected: set<Diagnostic>, graph: set<Diagnostic>, duplicates: set<Diagnostic>,
                 parents: set<Diagnostic>, rows: seq<Row>, endpoints: Endpoints)
    requires d == rejected + graph + duplicates + parents
    requires ReportsRows(rejected, rows, endpoints) && forall x | x in rejected :: x.RowRejected?
    requires IsGraphDiagnosis(graph, ValidRows(rows, endpoints), endpoints)
    requires ReportsDuplicates(duplicates, Triplets(ValidRows(rows, endpoints))) && forall x: Diagnostic | x in duplicates :: x.Duplicate?
    requires ReportsParents(parents, Linked(Placement, ValidRows(rows, endpoints), endpoints))
    requires forall x: Diagnostic | x in parents :: x.ManyParents?
    ensures IsDiagnosis(d, rows, endpoints)
  {
    hide CheckRow, Linked, Copies, Primaries, Acyclic, SimpleCycle, ValidRows, Triplets;
    assert forall x: Diagnostic | x.RowRejected? :: x in d <==> x in rejected;
    assert forall x: Diagnostic | x.Duplicate? :: x in d <==> x in duplicates;
    assert forall x: Diagnostic | x.ManyParents? :: x in d <==> x in parents;
    assert forall x: Diagnostic | x.ManyTargets? || x.ManyPrimaries? || x.CycleFound? :: x in d <==> x in graph;
  }

  lemma DuplicatePart(d: set<Diagnostic>, rows: seq<Row>)
    requires ReportsDuplicates(d, Triplets(rows))
    ensures (exists x | x in d :: x.Duplicate?) <==> !DistinctTriplets(rows)
  {
    hide Copies, DistinctTriplets, Triplets;
    DistinctIffOneCopy(rows);
    if !DistinctTriplets(rows) {
      var t :| Copies(Triplets(rows), t) > 1;
      assert Duplicate(t, Copies(Triplets(rows), t)) in d;
    }
    if x :| x in d && x.Duplicate? {
      assert Duplicate(x.triplet, x.copies) in d;
      assert Copies(Triplets(rows), x.triplet) > 1;
    }
  }

  lemma ParentPart(d: set<Diagnostic>, rows: seq<Row>, endpoints: Endpoints)
    requires ReportsParents(d, Linked(Placement, rows, endpoints))
    ensures (exists x | x in d :: x.ManyParents?) <==> !SingleValued(Placement, rows, endpoints)
  {
    hide Linked, SingleValued;
    CrowdedMeans(Placement, rows, endpoints);
    var g := Linked(Placement, rows, endpoints);
    if Crowded(g) != {} {
      var k :| k in Crowded(g);
      assert ManyParents(k, g[k]) in d;
    }
    if x :| x in d && x.ManyParents? {
      assert ManyParents(x.child, x.parents) in d;
      assert x.child in Crowded(g);
    }
  }

  /** The two passes agree: a collection is accepted exactly when its diagnosis is empty. */
  lemma PassesAgree(rows: seq<Row>, endpoints: Endpoints, d: set<Diagnostic>)
    requires IsDiagnosis(d, rows, endpoints)
    ensures d == {} <==> Acceptable(rows, endpoints)
  {
    hide CheckRow, Linked, ReportsDuplicates, ReportsParents, ReportsTargets, ReportsPrimaries, ReportsCycle,
         Acyclic, DistinctTriplets, SingleValued, SinglePrimary;
    if RowsValid(rows, endpoints) {
      DuplicatePart(d, rows);
      ParentPart(d, rows, endpoints);
      PrimaryPart(d, rows);
      TargetPart(d, rows, endpoints);
      CyclePart(d, Linked(Attachment, rows, endpoints), Linked(Uplink, rows, endpoints));
      assert forall i: nat, c :: RowRejected(i, c) !in d;
      assert forall x | x in d :: x.Duplicate? || x.ManyParents? || x.ManyPrimaries? || x.ManyTargets? || x.CycleFound?;
    } else {
      var i :| 0 <= i < |rows| && CheckRow(rows[i], endpoints).Err?;
      assert RowRejected(i, CheckRow(rows[i], endpoints).error) in d;
    }
  }
}
