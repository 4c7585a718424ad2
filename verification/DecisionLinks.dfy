/** What the supersession check says of the references that the catalog holds: every edge read off
    the text of a link, from the superseded decision to its successor. */
module DecisionLinks {
  import opened Wrappers
  import opened Digraphs
  import opened References
  import opened Decisions

  /** The text of a reference to a decision. */
  function DecisionText(id: string): string {
    "decision:" + id
  }

  ghost predicate Names(field: Field, id: string) {
    id != "" && field == Text(DecisionText(id))
  }

  ghost predicate Lists(field: Field, id: string) {
    field.Items? && id != "" && Text(DecisionText(id)) in field.items
  }

  /** `a` says that `b` succeeds it, or `b` says that it supersedes `a`. */
  ghost predicate Succeeds(documents: Documents, a: string, b: string) {
    || (a in documents && Names(documents[a].supersededBy, b))
    || (b in documents && Lists(documents[b].supersedes, a))
  }

  lemma DecisionIdIff(field: Field, id: string)
    ensures DecisionId(field) == Some(id) <==> Names(field, id)
  {
    hide Parse;
    var reference := TypedReference(Decision, id);
    assert Render(reference) == DecisionText(id);
    if field.Text? {
      ParseIffRendered(field.value, reference);
    }
  }

  lemma OwnedIff(owner: string, document: Document, a: string, b: string)
    ensures (a, b) in OwnedEdges(owner, document) <==>
            (a == owner && Names(document.supersededBy, b)) || (b == owner && Lists(document.supersedes, a))
  {
    hide DecisionId;
    DecisionIdIff(document.supersededBy, b);
    if document.supersedes.Items? {
      forall f | f in document.supersedes.items ensures DecisionId(f) == Some(a) <==> Names(f, a) {
        DecisionIdIff(f, a);
      }
      if Lists(document.supersedes, a) {
        assert Names(Text(DecisionText(a)), a);
      }
    }
  }

  /** The edges of the graph are exactly the links that one of their two ends states. */
  lemma EdgeIff(documents: Documents, a: string, b: string)
    ensures Edge(GraphOf(documents), a, b) <==> Succeeds(documents, a, b)
  {
    hide OwnedEdges, Edge;
    forall owner | owner in documents
      ensures Owns(documents, owner, a, b) <==>
              (a == owner && Names(documents[owner].supersededBy, b)) || (b == owner && Lists(documents[owner].supersedes, a))
    {
      OwnedIff(owner, documents[owner], a, b);
    }
    if Succeeds(documents, a, b) {
      if a in documents && Names(documents[a].supersededBy, b) {
        assert Owns(documents, a, a, b);
      } else {
        assert Owns(documents, b, a, b);
      }
    }
  }

  /** The write names its own decision exactly when one of its two fields refers to it. */
  lemma OwnLoopIff(id: string, data: Document)
    ensures (id, id) in OwnedEdges(id, data) <==> Names(data.supersededBy, id) || Lists(data.supersedes, id)
  {
    OwnedIff(id, data, id, id);
  }

  // Which documents take part.

  /** The last readable decision row of the id holds the document. */
  ghost predicate Stored(rows: seq<Row>, id: string, document: Document) {
    exists i :: 0 <= i < |rows| && rows[i] == Row(id, true, Some(document)) && NoLater(rows, i, id)
  }

  ghost predicate NoLater(rows: seq<Row>, i: nat, id: string) {
    forall j | i < j < |rows| :: rows[j].id == id ==> !rows[j].isDecision || rows[j].document.None?
  }

  lemma {:induction false} StoredIff(rows: seq<Row>, id: string, document: Document)
    ensures id in DocumentsOf(rows) && DocumentsOf(rows)[id] == document <==> Stored(rows, id, document)
  {
    if rows != [] {
      var n := |rows| - 1;
      var front, last := rows[..n], rows[n];
      StoredIff(front, id, document);
      if last.isDecision && last.document.Some? && last.id == id {
        assert last == Row(id, true, last.document);
        if last.document == Some(document) {
          assert rows[n] == Row(id, true, Some(document)) && NoLater(rows, n, id);
        }
      } else {
        if i :| 0 <= i < |front| && front[i] == Row(id, true, Some(document)) && NoLater(front, i, id) {
          assert rows[i] == Row(id, true, Some(document)) && NoLater(rows, i, id);
        }
        if i :| 0 <= i < |rows| && rows[i] == Row(id, true, Some(document)) && NoLater(rows, i, id) {
          assert front[i] == Row(id, true, Some(document)) && NoLater(front, i, id);
        }
      }
    }
  }

  /** The check sees the written decision as proposed and every other one as stored. */
  lemma ProjectedIff(rows: seq<Row>, id: string, data: Document, other: string, document: Document)
    ensures other in Projected(rows, id, data) && Projected(rows, id, data)[other] == document <==>
            if other == id then document == data else Stored(rows, other, document)
  {
    WithoutForgetsOne(rows, id);
    StoredIff(rows, other, document);
  }

  /** Decisions of which each is succeeded by the next, from `id` back to `id`. */
  ghost predicate Succession(documents: Documents, id: string, w: seq<string>) {
    |w| >= 2 && w[0] == w[|w| - 1] == id && forall i | 0 <= i < |w| - 1 :: Succeeds(documents, w[i], w[i + 1])
  }

  /** A write is accepted exactly when no chain of links leads from its decision back to it. */
  lemma AcceptedIff(rows: seq<Row>, id: string, data: Document)
    ensures Accepted(rows, id, data) <==> forall w :: !Succession(Projected(rows, id, data), id, w)
  {
    hide Projected, GraphOf, Edge, Succeeds;
    var documents := Projected(rows, id, data);
    forall a, b ensures Edge(GraphOf(documents), a, b) <==> Succeeds(documents, a, b) {
      EdgeIff(documents, a, b);
    }
    forall w ensures Succession(documents, id, w) <==>
                     |w| >= 2 && Walk(GraphOf(documents), w) && w[0] == id && w[|w| - 1] == id {
    }
  }

  // A link stated from both sides is one link.

  function WithPredecessor(document: Document, id: string): Document {
    document.(supersedes := Items((if document.supersedes.Items? then document.supersedes.items else [])
                                  + [Text(DecisionText(id))]))
  }

  function WithSuccessor(document: Document, id: string): Document {
    document.(supersededBy := Text(DecisionText(id)))
  }

  lemma ListsWithPredecessor(document: Document, id: string, x: string)
    ensures Lists(WithPredecessor(document, id).supersedes, x) <==>
            Lists(document.supersedes, x) || (x == id && id != "")
  {
    assert Text(DecisionText(x)) == Text(DecisionText(id)) <==> x == id by {
      assert DecisionText(x)[|"decision:"|..] == x && DecisionText(id)[|"decision:"|..] == id;
    }
  }

  /** The successor repeats a link that its predecessor states: no edge comes or goes. */
  lemma BackLinkIsOneEdge(documents: Documents, a: string, b: string, x: string, y: string)
    requires a in documents && b in documents && Names(documents[a].supersededBy, b)
    ensures Edge(GraphOf(documents[b := WithPredecessor(documents[b], a)]), x, y) <==> Edge(GraphOf(documents), x, y)
  {
    hide Edge, GraphOf, Names, Lists, WithPredecessor;
    var after := documents[b := WithPredecessor(documents[b], a)];
    EdgeIff(documents, x, y);
    EdgeIff(after, x, y);
    ListsWithPredecessor(documents[b], a, x);
    assert after[b].supersededBy == documents[b].supersededBy by {
      PredecessorKeepsSuccessor(documents[b], a);
    }
  }

  lemma PredecessorKeepsSuccessor(document: Document, id: string)
    ensures WithPredecessor(document, id).supersededBy == document.supersededBy
  {
  }

  /** The predecessor repeats a link that its successor states: no edge comes, and none goes but the
      one the replaced field stated. */
  lemma ForwardLinkIsOneEdge(documents: Documents, a: string, b: string, x: string, y: string)
    requires a in documents && b in documents && Lists(documents[b].supersedes, a)
    requires forall c :: Names(documents[a].supersededBy, c) ==> c == b
    ensures Edge(GraphOf(documents[a := WithSuccessor(documents[a], b)]), x, y) <==> Edge(GraphOf(documents), x, y)
  {
    hide Edge, GraphOf, Lists;
    var after := documents[a := WithSuccessor(documents[a], b)];
    EdgeIff(documents, x, y);
    EdgeIff(after, x, y);
    if Names(after[a].supersededBy, y) {
      assert DecisionText(y)[|"decision:"|..] == y && DecisionText(b)[|"decision:"|..] == b;
    }
  }

  /** Writing the matching back link into an acyclic catalog is never rejected. */
  lemma BackLinkIsAccepted(rows: seq<Row>, a: string, b: string)
    requires Acyclic(Supersession(rows)) && a in DocumentsOf(rows) && b in DocumentsOf(rows)
    requires Names(DocumentsOf(rows)[a].supersededBy, b)
    ensures Accepted(rows, b, WithPredecessor(DocumentsOf(rows)[b], a))
  {
    hide GraphOf, Edge, Leads, Acyclic, DocumentsOf, Without, Names, WithPredecessor;
    var documents := DocumentsOf(rows);
    var data := WithPredecessor(documents[b], a);
    WithoutForgetsOne(rows, b);
    assert Projected(rows, b, data) == documents[b := data];
    forall x, y ensures Edge(GraphOf(documents[b := data]), x, y) <==> Edge(GraphOf(documents), x, y) {
      BackLinkIsOneEdge(documents, a, b, x, y);
    }
    SameEdgesSameLeads(GraphOf(documents[b := data]), GraphOf(documents), b);
    AcyclicIffNothingLeadsBack(GraphOf(documents));
  }
}
