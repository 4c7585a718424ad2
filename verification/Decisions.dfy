/** The supersession graph of decisions and the check that guards every write to it. */
module Decisions {
  import opened Wrappers
  import opened Digraphs
  import opened References

  /** A JSON value as the check looks at it. */
  datatype Field = Absent | Text(value: string) | Items(items: seq<Field>) | Other

  datatype Document = Document(supersededBy: Field, supersedes: Field)

  /** A catalog row; `document` is `None` when its JSON does not parse to an object. */
  datatype Row = Row(id: string, isDecision: bool, document: Option<Document>)

  datatype DecisionError = SelfReference | SupersessionCycle

  /** Documents by the id of the decision that owns them. */
  type Documents = map<string, Document>

  /** `_decision_id`. */
  function DecisionId(field: Field): Option<string> {
    if !field.Text? then None
    else
      match Parse(field.value)
      case None => None
      case Some(r) => if r.kind == Decision then Some(r.objectId) else None
  }

  /** The links one document states, each from the superseded decision to its successor. */
  function OwnedEdges(owner: string, document: Document): (r: set<(string, string)>)
    ensures forall e | e in r :: e.0 == owner || e.1 == owner
  {
    var successor := DecisionId(document.supersededBy);
    (if successor.Some? then {(owner, successor.value)} else {})
    + (if document.supersedes.Items?
       then set f | f in document.supersedes.items && DecisionId(f).Some? :: (DecisionId(f).value, owner)
       else {})
  }

  ghost predicate Owns(documents: Documents, owner: string, a: string, b: string) {
    owner in documents && (a, b) in OwnedEdges(owner, documents[owner])
  }

  function GraphOf(documents: Documents): (g: Graph)
    ensures forall a, b :: Edge(g, a, b) <==> exists owner :: Owns(documents, owner, a, b)
  {
    var sources := set o, e | o in documents && e in OwnedEdges(o, documents[o]) :: e.0;
    var g := map a | a in sources :: set o, e | o in documents && e in OwnedEdges(o, documents[o]) && e.0 == a :: e.1;
    assert forall a, b :: Edge(g, a, b) <==> exists owner :: Owns(documents, owner, a, b) by {
      forall a, b ensures Edge(g, a, b) <==> exists owner :: Owns(documents, owner, a, b) {
        if owner :| Owns(documents, owner, a, b) {
          assert (a, b).0 in sources;
        }
        if Edge(g, a, b) {
          var o, e :| o in documents && e in OwnedEdges(o, documents[o]) && e.0 == a && e.1 == b;
          assert Owns(documents, o, a, b);
        }
      }
    }
    g
  }

  /** The readable decision documents of the catalog; unreadable rows do not take part. */
  function DocumentsOf(rows: seq<Row>): Documents {
    if rows == [] then map[]
    else
      var front, last := DocumentsOf(rows[..|rows| - 1]), rows[|rows| - 1];
      if last.isDecision && last.document.Some? then front[last.id := last.document.value] else front
  }

  function Without(rows: seq<Row>, id: string): (r: seq<Row>)
    ensures forall row | row in r :: row.id != id
  {
    if rows == [] then []
    else
      var front, last := Without(rows[..|rows| - 1], id), rows[|rows| - 1];
      if last.id == id then front else front + [last]
  }

  /** The documents the check sees: every other decision as stored, `id` as proposed. */
  function Projected(rows: seq<Row>, id: string, data: Document): Documents {
    DocumentsOf(Without(rows, id))[id := data]
  }

  lemma {:induction false} WithoutForgetsOne(rows: seq<Row>, id: string)
    ensures DocumentsOf(Without(rows, id)) == DocumentsOf(rows) - {id}
  {
    if rows != [] {
      var front := rows[..|rows| - 1];
      WithoutForgetsOne(front, id);
      assert (Without(front, id) + [rows[|rows| - 1]])[..|Without(front, id)|] == Without(front, id);
    }
  }

  /** `for predecessor_ref in supersedes: ... _add_edge`. */
  method AddPredecessors(edges: Graph, owner: string, items: seq<Field>, projectedId: string)
    returns (r: Result<Graph, DecisionError>)
    ensures r.Err? <==> owner == projectedId && exists f | f in items :: DecisionId(f) == Some(owner)
    ensures r.Err? ==> r.error == SelfReference
    ensures r.Ok? ==> forall a, b :: Edge(r.value, a, b) <==>
                                     Edge(edges, a, b) || (b == owner && exists f | f in items :: DecisionId(f) == Some(a))
  {
    hide DecisionId, Edge;
    var g := edges;
    for i := 0 to |items|
      invariant owner == projectedId ==> forall f | f in items[..i] :: DecisionId(f) != Some(owner)
      invariant forall a, b :: Edge(g, a, b) <==>
                               Edge(edges, a, b) || (b == owner && exists f | f in items[..i] :: DecisionId(f) == Some(a))
    {
      assert items[..i + 1] == items[..i] + [items[i]];
      var predecessor := DecisionId(items[i]);
      if predecessor.Some? {
        if predecessor.value == owner && owner == projectedId {
          assert items[i] in items;
          return Err(SelfReference);
        }
        g := AddEdge(g, predecessor.value, owner);
      }
    }
    assert items[..|items|] == items;
    return Ok(g);
  }

  /** All edges one document adds, or the self-reference of the projected decision. */
  method AddOwned(edges: Graph, owner: string, document: Document, projectedId: string)
    returns (r: Result<Graph, DecisionError>)
    ensures r.Err? <==> owner == projectedId && (owner, owner) in OwnedEdges(owner, document)
    ensures r.Err? ==> r.error == SelfReference
    ensures r.Ok? ==> forall a, b :: Edge(r.value, a, b) <==> Edge(edges, a, b) || (a, b) in OwnedEdges(owner, document)
  {
    hide DecisionId, Edge;
    var g := edges;
    var successor := DecisionId(document.supersededBy);
    if successor.Some? {
      if owner == successor.value && owner == projectedId {
        return Err(SelfReference);
      }
      g := AddEdge(g, owner, successor.value);
    }
    if !document.supersedes.Items? {
      return Ok(g);
    }
    r := AddPredecessors(g, owner, document.supersedes.items, projectedId);
  }

  /** The edges of all documents, whatever order they are visited in. */
  method CollectEdges(documents: Documents, projectedId: string) returns (r: Result<Graph, DecisionError>)
    requires projectedId in documents
    ensures r.Err? <==> Edge(GraphOf(documents), projectedId, projectedId)
                        && (projectedId, projectedId) in OwnedEdges(projectedId, documents[projectedId])
    ensures r.Err? ==> r.error == SelfReference
    ensures r.Ok? ==> forall a, b :: Edge(r.value, a, b) <==> Edge(GraphOf(documents), a, b)
  {
    hide OwnedEdges, Edge, GraphOf;
    var g: Graph := map[];
    assert forall a, b :: !Edge(g, a, b) by {
      EmptyGraph();
    }
    var unread := documents.Keys;
    while unread != {}
      invariant unread <= documents.Keys
      invariant projectedId !in unread ==> (projectedId, projectedId) !in OwnedEdges(projectedId, documents[projectedId])
      invariant forall a, b :: Edge(g, a, b) <==> exists o :: o !in unread && Owns(documents, o, a, b)
    {
      var owner :| owner in unread;
      var next := AddOwned(g, owner, documents[owner], projectedId);
      if next.Err? {
        assert Owns(documents, owner, owner, owner);
        return Err(next.error);
      }
      ghost var before, rest := g, unread;
      g, unread := next.value, unread - {owner};
      forall a, b ensures Edge(g, a, b) <==> exists o :: o !in unread && Owns(documents, o, a, b) {
        if Edge(before, a, b) {
          var o :| o !in rest && Owns(documents, o, a, b);
          assert o !in unread;
        }
        if (a, b) in OwnedEdges(owner, documents[owner]) {
          assert owner !in unread && Owns(documents, owner, a, b);
        }
      }
    }
    return Ok(g);
  }

  lemma EmptyGraph()
    ensures forall a, b :: !Edge(map[], a, b)
  {
  }

  lemma ExtendLead(g: Graph, a: string, b: string, c: string)
    requires (a == b || Leads(g, a, b)) && Edge(g, b, c)
    ensures Leads(g, a, c)
  {
    hide Edge;
    if Leads(g, a, b) {
      var w :| |w| >= 2 && Walk(g, w) && w[0] == a && w[|w| - 1] == b;
      assert Walk(g, w + [c]);
      assert (w + [c])[|w|] == c;
    } else {
      assert Walk(g, [a, c]);
      assert [a, c][0] == a && [a, c][1] == c;
    }
  }

  /** Nothing leads back to `id` from a set that is closed except that it never steps onto `id`. */
  lemma ClosedSetAvoids(g: Graph, id: string, closed: set<string>, w: seq<string>, i: nat)
    requires id in closed && forall v, t | v in closed && Edge(g, v, t) :: t in closed && t != id
    requires Walk(g, w) && w[0] == id && i < |w|
    ensures w[i] in closed && (i > 0 ==> w[i] != id)
  {
    if i > 0 {
      ClosedSetAvoids(g, id, closed, w, i - 1);
      assert Edge(g, w[i - 1], w[i]);
    }
  }

  /** `list(s)`, in whatever order the set yields its members. */
  method ListOf(s: set<string>) returns (r: seq<string>)
    ensures forall x :: x in r <==> x in s
  {
    var unread := s;
    r := [];
    while unread != {}
      invariant unread <= s
      invariant forall x :: x in r <==> x in s - unread
    {
      var x :| x in unread;
      r, unread := r + [x], unread - {x};
    }
  }

  /** `_cycle_involving`: whether a walk of at least one edge leads from `id` back to `id`. */
  method CycleInvolving(edges: Graph, id: string) returns (found: bool)
    ensures found <==> Leads(edges, id, id)
  {
    hide Edge, Leads, Walk;
    var pending := ListOf(Successors(edges, id));
    var visited := {id};
    forall x | x in Successors(edges, id) ensures Edge(edges, id, x) && x in Nodes(edges) && Leads(edges, id, x) {
      SuccessorFacts(edges, id, x);
      ExtendLead(edges, id, id, x);
    }
    assert forall t | Edge(edges, id, t) :: t in pending by {
      EdgesAreSuccessors(edges, id);
    }
    while pending != []
      invariant id in visited
      invariant forall x | x in pending :: x in Nodes(edges) && Leads(edges, id, x)
      invariant forall x | x in visited && x != id :: Leads(edges, id, x)
      invariant forall v, t | v in visited && Edge(edges, v, t) :: t in pending || (t in visited && t != id)
      decreases Nodes(edges) - visited, |pending|
    {
      var node := pending[|pending| - 1];
      assert node in pending;
      assert pending == pending[..|pending| - 1] + [node];
      pending := pending[..|pending| - 1];
      if node == id {
        return true;
      }
      if node !in visited {
        visited := visited + {node};
        var more := ListOf(Successors(edges, node));
        forall x | x in more ensures x in Nodes(edges) && Leads(edges, id, x) {
          SuccessorFacts(edges, node, x);
          ExtendLead(edges, id, node, x);
        }
        EdgesAreSuccessors(edges, node);
        pending := pending + more;
      }
    }
    NothingLeadsBack(edges, id, visited);
    return false;
  }

  lemma SuccessorFacts(g: Graph, node: string, x: string)
    requires x in Successors(g, node)
    ensures Edge(g, node, x) && x in Nodes(g)
  {
  }

  lemma EdgesAreSuccessors(g: Graph, node: string)
    ensures forall t :: Edge(g, node, t) <==> t in Successors(g, node)
  {
  }

  lemma NothingLeadsBack(g: Graph, id: string, closed: set<string>)
    requires id in closed && forall v, t | v in closed && Edge(g, v, t) :: t in closed && t != id
    ensures !Leads(g, id, id)
  {
    forall w | |w| >= 2 && Walk(g, w) && w[0] == id ensures w[|w| - 1] != id {
      ClosedSetAvoids(g, id, closed, w, |w| - 1);
    }
  }

  /** The projected write closes no cycle through the written decision. */
  ghost predicate Accepted(rows: seq<Row>, id: string, data: Document) {
    !Leads(GraphOf(Projected(rows, id, data)), id, id)
  }

  lemma SameEdgesSameLeads(g: Graph, h: Graph, id: string)
    requires forall a, b :: Edge(g, a, b) <==> Edge(h, a, b)
    ensures Leads(g, id, id) <==> Leads(h, id, id)
  {
    forall w ensures Walk(g, w) <==> Walk(h, w) {
    }
  }

  lemma LoopLeadsBack(g: Graph, id: string)
    requires Edge(g, id, id)
    ensures Leads(g, id, id)
  {
    ExtendLead(g, id, id, id);
  }

  /** `validate_decision_integrity`: rejected exactly when the write puts its decision on a cycle. */
  method ValidateDecisionIntegrity(rows: seq<Row>, id: string, data: Document) returns (r: Result<(), DecisionError>)
    ensures r.Ok? <==> Accepted(rows, id, data)
    ensures r == Err(SelfReference) <==> (id, id) in OwnedEdges(id, data)
  {
    hide OwnedEdges, GraphOf, Leads, Edge;
    var documents: Documents := map[];
    for i := 0 to |rows|
      invariant documents == DocumentsOf(Without(rows[..i], id))
    {
      var row := rows[i];
      assert rows[..i + 1][..i] == rows[..i];
      ghost var kept := Without(rows[..i], id);
      assert (kept + [row])[..|kept|] == kept;
      if row.isDecision && row.id != id && row.document.Some? {
        documents := documents[row.id := row.document.value];
      }
    }
    assert rows[..|rows|] == rows;
    documents := documents[id := data];
    var edges := CollectEdges(documents, id);
    if edges.Err? {
      LoopLeadsBack(GraphOf(documents), id);
      return Err(edges.error);
    }
    assert Owns(documents, id, id, id) ==> Edge(GraphOf(documents), id, id);
    var found := CycleInvolving(edges.value, id);
    SameEdgesSameLeads(edges.value, GraphOf(documents), id);
    r := if found then Err(SupersessionCycle) else Ok(());
  }

  // Runs of writes.

  datatype Write = Write(id: string, data: Document)

  function Put(rows: seq<Row>, w: Write): seq<Row> {
    Without(rows, w.id) + [Row(w.id, true, Some(w.data))]
  }

  /** A rejected write leaves the catalog as it was. */
  ghost function Step(rows: seq<Row>, w: Write): seq<Row> {
    if Accepted(rows, w.id, w.data) then Put(rows, w) else rows
  }

  ghost function Run(rows: seq<Row>, writes: seq<Write>): seq<Row>
    decreases |writes|
  {
    if writes == [] then rows else Run(Step(rows, writes[0]), writes[1..])
  }

  function Supersession(rows: seq<Row>): Graph {
    GraphOf(DocumentsOf(rows))
  }

  lemma PutStoresProjection(rows: seq<Row>, w: Write)
    ensures DocumentsOf(Put(rows, w)) == Projected(rows, w.id, w.data)
  {
    assert Put(rows, w)[..|Put(rows, w)| - 1] == Without(rows, w.id);
  }

  /** An edge the write did not touch was there before: every edge a document owns touches it. */
  lemma UntouchedEdgesWereThere(rows: seq<Row>, w: Write, a: string, b: string)
    requires Edge(Supersession(Put(rows, w)), a, b) && a != w.id && b != w.id
    ensures Edge(Supersession(rows), a, b)
  {
    hide OwnedEdges;
    PutStoresProjection(rows, w);
    WithoutForgetsOne(rows, w.id);
    var owner :| Owns(DocumentsOf(Put(rows, w)), owner, a, b);
    assert Owns(DocumentsOf(rows), owner, a, b);
  }

  /** An accepted write adds no cycle, even to a catalog that already has some. */
  lemma AcceptedWriteAddsNoCycle(rows: seq<Row>, w: Write, walk: seq<string>)
    requires Accepted(rows, w.id, w.data) && ClosedWalk(Supersession(Put(rows, w)), walk)
    ensures ClosedWalk(Supersession(rows), walk)
  {
    hide Supersession, Edge, Leads;
    var g := Supersession(Put(rows, w));
    assert g == GraphOf(Projected(rows, w.id, w.data)) by {
      SupersessionOfPut(rows, w);
    }
    forall i | 0 <= i < |walk| ensures walk[i] != w.id {
      ClosedWalkLeadsBack(g, walk, i);
    }
    forall i | 0 <= i < |walk| - 1 ensures Edge(Supersession(rows), walk[i], walk[i + 1]) {
      assert Edge(g, walk[i], walk[i + 1]);
      UntouchedEdgesWereThere(rows, w, walk[i], walk[i + 1]);
    }
  }

  lemma SupersessionOfPut(rows: seq<Row>, w: Write)
    ensures Supersession(Put(rows, w)) == GraphOf(Projected(rows, w.id, w.data))
  {
    PutStoresProjection(rows, w);
  }

  /** Every cycle at the end of a run was there at its start. */
  lemma {:induction false} RunAddsNoCycle(rows: seq<Row>, writes: seq<Write>, walk: seq<string>)
    requires ClosedWalk(Supersession(Run(rows, writes)), walk)
    ensures ClosedWalk(Supersession(rows), walk)
    decreases |writes|
  {
    hide ClosedWalk, Supersession, Accepted;
    if writes != [] {
      RunAddsNoCycle(Step(rows, writes[0]), writes[1..], walk);
      if Accepted(rows, writes[0].id, writes[0].data) {
        AcceptedWriteAddsNoCycle(rows, writes[0], walk);
      }
    }
  }

  lemma RunsStayAcyclic(rows: seq<Row>, writes: seq<Write>)
    requires Acyclic(Supersession(rows))
    ensures Acyclic(Supersession(Run(rows, writes)))
  {
    hide ClosedWalk, Supersession, Run;
    forall walk ensures !ClosedWalk(Supersession(Run(rows, writes)), walk) {
      if ClosedWalk(Supersession(Run(rows, writes)), walk) {
        RunAddsNoCycle(rows, writes, walk);
      }
    }
  }

  /** From an acyclic catalog the check rejects exactly the writes that would close a cycle. */
  lemma RejectsExactlyTheCycles(rows: seq<Row>, w: Write)
    requires Acyclic(Supersession(rows))
    ensures Accepted(rows, w.id, w.data) <==> Acyclic(Supersession(Put(rows, w)))
  {
    hide ClosedWalk, Supersession, Leads;
    SupersessionOfPut(rows, w);
    AcyclicIffNothingLeadsBack(Supersession(Put(rows, w)));
    if Accepted(rows, w.id, w.data) {
      forall walk ensures !ClosedWalk(Supersession(Put(rows, w)), walk) {
        if ClosedWalk(Supersession(Put(rows, w)), walk) {
          AcceptedWriteAddsNoCycle(rows, w, walk);
        }
      }
    }
  }
}
