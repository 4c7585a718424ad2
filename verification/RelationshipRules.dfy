/** The rules of the relationship registry read off its rows: which single edges and which collections
    are accepted, and for what each rejection stands. */
module RelationshipRules {
  import opened Wrappers
  import opened Digraphs
  import opened References
  import opened Relationships
  import opened RelationshipPasses

  /** A network object of one of the device categories. */
  ghost predicate BuildsNetworks(e: Endpoint) {
    && e.kind == Network
    && (e.networkCategory == Some("switch") || e.networkCategory == Some("router") || e.networkCategory == Some("access_point")
        || e.networkCategory == Some("mesh") || e.networkCategory == Some("firewall") || e.networkCategory == Some("gateway")
        || e.networkCategory == Some("other_device"))
  }

  lemma BuildsNetworksIff(e: Endpoint)
    ensures IsNetworkDevice(e) <==> BuildsNetworks(e)
  {
  }

  /** The objects a relation type may join, source first. */
  ghost predicate MayJoin(t: RelationType, a: Endpoint, b: Endpoint) {
    match t
    case Hosts =>
      || (a.kind == Host && b.kind == System)
      || (a.kind == Host && b.kind == Service)
      || (a.kind == System && b.kind == Service)
    case OperationsRunbookFor => a.kind == Runbook && (b.kind == Host || b.kind == System || b.kind == Service)
    case DependsOn => IsAsset(a.kind) && IsAsset(b.kind)
    case Supports => a.kind == Service && b.kind == Service
    case Feeds => a.kind == Service && b.kind == Service
    case Exposes => a.kind == Service && b.kind == Service
    case Documents => a.kind == Runbook || a.kind == Decision || a.kind == Project
    case Uses => true
    case RelatedTo => true
    case AttachedTo =>
      || (a.kind == Device && (b.kind == Host || b.kind == System || b.kind == Device))
      || ((a.kind == Device || a.kind == Host || a.kind == System) && BuildsNetworks(b))
    case UplinksTo => BuildsNetworks(a) && BuildsNetworks(b)
    case Unregistered(_) => false
  }

  ghost predicate IsAsset(k: Kind) {
    k == Host || k == System || k == Network || k == Device || k == Service
  }

  lemma NetworkKind(e: Endpoint)
    ensures BuildsNetworks(e) ==> e.kind == Network
  {
  }

  lemma EveryKind(k: Kind)
    ensures k in ALL_KINDS
  {
    match k
    case Host => case System => case Network => case Device => case Service =>
    case CredentialReference => case Runbook => case Decision => case Project =>
  }

  /** The pair table and the endpoint rule of the registry allow exactly these joins. */
  lemma MayJoinIff(t: RelationType, a: Endpoint, b: Endpoint)
    ensures MayJoin(t, a, b) <==> PairAllowed(t, a.kind, b.kind) && EndpointsAllowed(t, a, b)
  {
    hide IsNetworkDevice, BuildsNetworks;
    EveryKind(a.kind);
    EveryKind(b.kind);
    BuildsNetworksIff(a);
    BuildsNetworksIff(b);
    NetworkKind(a);
    NetworkKind(b);
    match t
    case Hosts => case OperationsRunbookFor => case DependsOn => case Supports => case Feeds => case Exposes =>
    case Documents => case Uses => case RelatedTo => case AttachedTo => case UplinksTo => case Unregistered(_) =>
  }

  // What a reference text can be.

  /** The text refers to the stored object `id` by its stored kind. */
  ghost predicate Names(value: string, endpoints: Endpoints, id: string) {
    id != "" && id in endpoints && value == Render(TypedReference(endpoints[id].kind, id))
  }

  ghost predicate Readable(value: string) {
    exists r: TypedReference :: r.objectId != "" && value == Render(r)
  }

  /** The text refers to no stored object. */
  ghost predicate Dangles(value: string, endpoints: Endpoints) {
    exists r: TypedReference :: r.objectId != "" && value == Render(r) && r.objectId !in endpoints
  }

  /** The text refers to a stored object by another kind. */
  ghost predicate Misnames(value: string, endpoints: Endpoints) {
    exists r: TypedReference :: r.objectId != "" && value == Render(r) && r.objectId in endpoints
                                && endpoints[r.objectId].kind != r.kind
  }

  lemma ReadsOnlyAs(value: string, r: TypedReference)
    requires r.objectId != "" && value == Render(r)
    ensures Parse(value) == Some(r)
  {
    ParseIffRendered(value, r);
  }

  lemma ParsedIsRendered(value: string)
    requires Parse(value).Some?
    ensures Parse(value).value.objectId != "" && value == Render(Parse(value).value)
  {
    ParseIffRendered(value, Parse(value).value);
  }

  /** A text that names nothing is unreadable, dangling or misnaming, and never two of these. */
  lemma ResolveIff(value: string, endpoints: Endpoints, id: string)
    ensures Resolve(value, endpoints).Ok? && Resolve(value, endpoints).value.objectId == id <==> Names(value, endpoints, id)
    ensures Resolve(value, endpoints) == Err(InvalidTypedReference) <==> !Readable(value)
    ensures Resolve(value, endpoints) == Err(DanglingTypedReference) <==> Dangles(value, endpoints)
    ensures Resolve(value, endpoints) == Err(KindMismatch) <==> Misnames(value, endpoints)
  {
    hide Parse, Render;
    if Names(value, endpoints, id) {
      ReadsOnlyAs(value, TypedReference(endpoints[id].kind, id));
    }
    if Parse(value).Some? {
      ParsedIsRendered(value);
    }
    forall r: TypedReference | r.objectId != "" && value == Render(r) ensures Parse(value) == Some(r) {
      ReadsOnlyAs(value, r);
    }
  }

  // Single rows.

  ghost predicate Registered(t: RelationType) {
    !t.Unregistered?
  }

  /** The row joins two different stored objects, each by a reference of its stored kind. */
  ghost predicate Joining(row: Row, endpoints: Endpoints, a: string, b: string) {
    a != b && Names(row.fromRef, endpoints, a) && Names(row.toRef, endpoints, b)
  }

  ghost predicate Named(value: string, endpoints: Endpoints) {
    exists id :: Names(value, endpoints, id)
  }

  lemma NamesOnlyOne(value: string, endpoints: Endpoints, a: string, b: string)
    requires Names(value, endpoints, a) && Names(value, endpoints, b)
    ensures a == b
  {
    hide Resolve, Names;
    ResolveIff(value, endpoints, a);
    ResolveIff(value, endpoints, b);
  }

  lemma ResolvedIsNamed(value: string, endpoints: Endpoints)
    ensures Resolve(value, endpoints).Ok? <==> Named(value, endpoints)
    ensures Resolve(value, endpoints).Ok? ==> Names(value, endpoints, Resolve(value, endpoints).value.objectId)
    ensures Resolve(value, endpoints).Ok? ==>
              endpoints[Resolve(value, endpoints).value.objectId].kind == Resolve(value, endpoints).value.kind
    ensures Resolve(value, endpoints).Err? ==>
              Resolve(value, endpoints).error in {InvalidTypedReference, DanglingTypedReference, KindMismatch}
  {
    hide Names;
    forall id ensures Names(value, endpoints, id) ==> Resolve(value, endpoints).Ok? {
      ResolveIff(value, endpoints, id);
    }
    if Resolve(value, endpoints).Ok? {
      ResolveIff(value, endpoints, Resolve(value, endpoints).value.objectId);
    }
  }

  /** A row is accepted on its own exactly when it joins two different objects that its type may join
      and its metadata is valid. */
  lemma AcceptedRowIff(row: Row, endpoints: Endpoints)
    ensures CheckRow(row, endpoints).Ok? <==>
            row.metadata.Ok?
            && exists a, b :: Joining(row, endpoints, a, b) && MayJoin(row.relationType, endpoints[a], endpoints[b])
  {
    hide Resolve, Names, MayJoin, PairAllowed, EndpointsAllowed;
    ResolvedIsNamed(row.fromRef, endpoints);
    ResolvedIsNamed(row.toRef, endpoints);
    var source, target := Resolve(row.fromRef, endpoints), Resolve(row.toRef, endpoints);
    if source.Ok? && target.Ok? {
      var a, b := source.value.objectId, target.value.objectId;
      MayJoinIff(row.relationType, endpoints[a], endpoints[b]);
      assert a != b ==> Joining(row, endpoints, a, b);
      forall x, y | Joining(row, endpoints, x, y) ensures x == a && y == b {
        NamesOnlyOne(row.fromRef, endpoints, x, a);
        NamesOnlyOne(row.toRef, endpoints, y, b);
      }
    }
    if row.relationType.Unregistered? {
      UnregisteredJoinsNothing(row.relationType);
    }
  }

  lemma UnregisteredJoinsNothing(t: RelationType)
    requires t.Unregistered?
    ensures forall a, b :: !MayJoin(t, a, b)
  {
  }

  // What each rejection of a row stands for.

  /** The kinds alone: only the two link types look at more than the kinds of their endpoints. */
  ghost predicate KindsMayJoin(t: RelationType, a: Kind, b: Kind) {
    match t
    case AttachedTo =>
      && (a == Device || a == Host || a == System)
      && (b == Device || b == Host || b == System || b == Network)
    case UplinksTo => a == Network && b == Network
    case _ => MayJoin(t, Endpoint(a, None), Endpoint(b, None))
  }

  lemma KindsMayJoinIff(t: RelationType, a: Kind, b: Kind)
    ensures KindsMayJoin(t, a, b) <==> PairAllowed(t, a, b)
  {
    if t.AttachedTo? || t.UplinksTo? {
    } else {
      MayJoinIff(t, Endpoint(a, None), Endpoint(b, None));
    }
  }

  ghost predicate Joined(row: Row, endpoints: Endpoints) {
    exists a, b :: Joining(row, endpoints, a, b) && MayJoin(row.relationType, endpoints[a], endpoints[b])
  }

  /** The source is looked at before the target. */
  lemma BadTextIff(row: Row, endpoints: Endpoints)
    ensures ValidateRelationship(row.fromRef, row.relationType, row.toRef, endpoints) == Err(UnsupportedRelationType)
            <==> row.relationType.Unregistered?
    ensures ValidateRelationship(row.fromRef, row.relationType, row.toRef, endpoints) == Err(InvalidTypedReference)
            <==> !row.relationType.Unregistered?
                 && (!Readable(row.fromRef) || (Named(row.fromRef, endpoints) && !Readable(row.toRef)))
    ensures ValidateRelationship(row.fromRef, row.relationType, row.toRef, endpoints) == Err(DanglingTypedReference)
            <==> !row.relationType.Unregistered?
                 && (Dangles(row.fromRef, endpoints) || (Named(row.fromRef, endpoints) && Dangles(row.toRef, endpoints)))
    ensures ValidateRelationship(row.fromRef, row.relationType, row.toRef, endpoints) == Err(KindMismatch)
            <==> !row.relationType.Unregistered?
                 && (Misnames(row.fromRef, endpoints) || (Named(row.fromRef, endpoints) && Misnames(row.toRef, endpoints)))
  {
    hide Readable, Dangles, Misnames, Names, PairAllowed, EndpointsAllowed, Parse;
    ResolvedIsNamed(row.fromRef, endpoints);
    ResolvedIsNamed(row.toRef, endpoints);
    ResolveIff(row.fromRef, endpoints, "");
    ResolveIff(row.toRef, endpoints, "");
  }

  lemma BadJoinIff(row: Row, endpoints: Endpoints)
    requires !row.relationType.Unregistered?
    ensures ValidateRelationship(row.fromRef, row.relationType, row.toRef, endpoints) == Err(SelfReference)
            <==> exists a :: Names(row.fromRef, endpoints, a) && Names(row.toRef, endpoints, a)
    ensures ValidateRelationship(row.fromRef, row.relationType, row.toRef, endpoints) == Err(InvalidDirection)
            <==> exists a, b :: Joining(row, endpoints, a, b)
                                && !KindsMayJoin(row.relationType, endpoints[a].kind, endpoints[b].kind)
    ensures ValidateRelationship(row.fromRef, row.relationType, row.toRef, endpoints) == Err(InvalidEndpoint)
            <==> exists a, b :: Joining(row, endpoints, a, b)
                                && KindsMayJoin(row.relationType, endpoints[a].kind, endpoints[b].kind)
                                && !MayJoin(row.relationType, endpoints[a], endpoints[b])
  {
    hide Resolve, Names, MayJoin, KindsMayJoin, PairAllowed, EndpointsAllowed;
    ResolvedIsNamed(row.fromRef, endpoints);
    ResolvedIsNamed(row.toRef, endpoints);
    var source, target := Resolve(row.fromRef, endpoints), Resolve(row.toRef, endpoints);
    forall x, y | Names(row.fromRef, endpoints, x) && Names(row.toRef, endpoints, y)
      ensures source.Ok? && target.Ok? && x == source.value.objectId && y == target.value.objectId
    {
      NamesOnlyOne(row.fromRef, endpoints, x, source.value.objectId);
      NamesOnlyOne(row.toRef, endpoints, y, target.value.objectId);
    }
    if source.Ok? && target.Ok? {
      var a, b := source.value.objectId, target.value.objectId;
      MayJoinIff(row.relationType, endpoints[a], endpoints[b]);
      KindsMayJoinIff(row.relationType, endpoints[a].kind, endpoints[b].kind);
      assert a != b ==> Joining(row, endpoints, a, b);
    }
  }

  /** The metadata is looked at last. */
  lemma RejectedRowIff(row: Row, endpoints: Endpoints, c: Rejection)
    ensures CheckRow(row, endpoints) == Err(c) <==>
            ValidateRelationship(row.fromRef, row.relationType, row.toRef, endpoints) == Err(c)
            || (Joined(row, endpoints) && row.metadata == Err(c))
  {
    hide Resolve, Names, MayJoin, PairAllowed, EndpointsAllowed, ValidateRelationship;
    AcceptedRowIff(row.(metadata := Ok(Metadata(false))), endpoints);
    var tidy := row.(metadata := Ok(Metadata(false)));
    assert Joined(row, endpoints) <==> Joined(tidy, endpoints) by {
      forall a, b ensures Joining(row, endpoints, a, b) <==> Joining(tidy, endpoints, a, b) {
      }
    }
  }

  // Collections.

  /** No type has an edge from an object to itself. */
  lemma NoSelfEdge(t: RelationType, rows: seq<Row>, endpoints: Endpoints, a: string)
    requires RowsValid(rows, endpoints)
    ensures !ObjectEdge(t, rows, a, a)
  {
    hide Parse, MayJoin, CheckRow;
    if i :| 0 <= i < |rows| && rows[i].relationType == t && Relationships.Joins(rows[i], a, a) {
      AcceptedRowIff(rows[i], endpoints);
      var x, y :| Joining(rows[i], endpoints, x, y);
      ReadsOnlyAs(rows[i].fromRef, TypedReference(endpoints[x].kind, x));
      ReadsOnlyAs(rows[i].toRef, TypedReference(endpoints[y].kind, y));
    }
  }

  ghost predicate RowsStandAlone(rows: seq<Row>, endpoints: Endpoints) {
    forall i | 0 <= i < |rows| :: rows[i].metadata.Ok? && Joined(rows[i], endpoints)
  }

  ghost predicate NoRepeats(rows: seq<Row>) {
    forall i, j | 0 <= i < j < |rows| ::
      rows[i].fromRef != rows[j].fromRef || rows[i].relationType != rows[j].relationType || rows[i].toRef != rows[j].toRef
  }

  ghost predicate OneParentPerChild(rows: seq<Row>) {
    forall i, j | 0 <= i < j < |rows| && rows[i].relationType.Hosts? && rows[j].relationType.Hosts? ::
      rows[i].toRef != rows[j].toRef
  }

  ghost predicate OneTargetPerRunbook(rows: seq<Row>) {
    forall i, j | 0 <= i < j < |rows| && rows[i].relationType.OperationsRunbookFor? && rows[j].relationType.OperationsRunbookFor? ::
      rows[i].fromRef != rows[j].fromRef
  }

  ghost predicate OnePrimaryPerSource(rows: seq<Row>) {
    forall i, j | 0 <= i < j < |rows| && GraphTracked(rows[i].relationType)
                  && rows[i].relationType == rows[j].relationType && rows[i].fromRef == rows[j].fromRef ::
      !(rows[i].metadata == Ok(Metadata(true)) && rows[j].metadata == Ok(Metadata(true)))
  }

  ghost predicate GraphTracked(t: RelationType) {
    t.OperationsRunbookFor? || t.AttachedTo? || t.UplinksTo?
  }

  lemma StandAloneIff(rows: seq<Row>, endpoints: Endpoints)
    ensures RowsValid(rows, endpoints) <==> RowsStandAlone(rows, endpoints)
  {
    hide CheckRow, Joining, MayJoin;
    forall i | 0 <= i < |rows|
      ensures CheckRow(rows[i], endpoints).Ok? <==> rows[i].metadata.Ok? && Joined(rows[i], endpoints)
    {
      AcceptedRowIff(rows[i], endpoints);
    }
  }

  lemma OneParentIff(rows: seq<Row>, endpoints: Endpoints)
    requires NoRepeats(rows)
    ensures SingleValued(Placement, rows, endpoints) <==> OneParentPerChild(rows)
  {
    forall i, j | 0 <= i < j < |rows|
      ensures Selects(Placement, rows[i], endpoints) && Selects(Placement, rows[j], endpoints)
              && KeyOf(Placement, rows[i]) == KeyOf(Placement, rows[j])
              ==> ValueOf(Placement, rows[i]) != ValueOf(Placement, rows[j])
    {
    }
    if !OneParentPerChild(rows) {
      var i, j :| 0 <= i < j < |rows| && rows[i].relationType.Hosts? && rows[j].relationType.Hosts?
                  && rows[i].toRef == rows[j].toRef;
      assert Selects(Placement, rows[i], endpoints) && Selects(Placement, rows[j], endpoints);
      assert KeyOf(Placement, rows[i]) == KeyOf(Placement, rows[j]);
    }
  }

  lemma OneTargetIff(rows: seq<Row>, endpoints: Endpoints)
    requires NoRepeats(rows)
    ensures SingleValued(Responsibility, rows, endpoints) <==> OneTargetPerRunbook(rows)
  {
    if !OneTargetPerRunbook(rows) {
      var i, j :| 0 <= i < j < |rows| && rows[i].relationType.OperationsRunbookFor?
                  && rows[j].relationType.OperationsRunbookFor? && rows[i].fromRef == rows[j].fromRef;
      assert Selects(Responsibility, rows[i], endpoints) && Selects(Responsibility, rows[j], endpoints);
      assert KeyOf(Responsibility, rows[i]) == KeyOf(Responsibility, rows[j]);
    }
  }

  lemma OnePrimaryIff(rows: seq<Row>)
    ensures SinglePrimary(rows) <==> OnePrimaryPerSource(rows)
  {
    if !SinglePrimary(rows) {
      var i, j, s, t :| 0 <= i < j < |rows| && IsPrimary(rows[i], s, t) && IsPrimary(rows[j], s, t);
      assert rows[i].metadata == Ok(Metadata(true)) && rows[j].metadata == Ok(Metadata(true));
    }
    if !OnePrimaryPerSource(rows) {
      var i, j :| 0 <= i < j < |rows| && GraphTracked(rows[i].relationType)
                  && rows[i].relationType == rows[j].relationType && rows[i].fromRef == rows[j].fromRef
                  && rows[i].metadata == Ok(Metadata(true)) && rows[j].metadata == Ok(Metadata(true));
      assert IsPrimary(rows[i], rows[i].fromRef, rows[i].relationType);
      assert IsPrimary(rows[j], rows[i].fromRef, rows[i].relationType);
    }
  }

  /** A collection is accepted exactly when every row stands alone, no row is repeated, no child has two
      placements, no runbook two responsibilities, no source two primary links of one type, and no
      object is attached or uplinked to itself over any number of edges. */
  lemma AcceptableIff(rows: seq<Row>, endpoints: Endpoints)
    ensures Acceptable(rows, endpoints) <==>
            && RowsStandAlone(rows, endpoints)
            && NoRepeats(rows)
            && OneParentPerChild(rows)
            && OneTargetPerRunbook(rows)
            && OnePrimaryPerSource(rows)
            && forall w :: !ObjectCycle(AttachedTo, rows, w) && !ObjectCycle(UplinksTo, rows, w)
  {
    hide RowsStandAlone, RowsValid, OneParentPerChild, OneTargetPerRunbook, OnePrimaryPerSource, SinglePrimary,
         SingleValued, Linked, Acyclic, ObjectCycle;
    StandAloneIff(rows, endpoints);
    assert NoRepeats(rows) <==> DistinctTriplets(rows);
    OnePrimaryIff(rows);
    if NoRepeats(rows) {
      OneParentIff(rows, endpoints);
      OneTargetIff(rows, endpoints);
    }
    if RowsValid(rows, endpoints) {
      SubgraphSearchIsEnough(Attachment, AttachedTo, rows, endpoints);
      SubgraphSearchIsEnough(Uplink, UplinksTo, rows, endpoints);
    }
  }

  /** The first row that does not stand alone, and its code. */
  ghost predicate FirstBadRow(rows: seq<Row>, endpoints: Endpoints, i: nat, c: Rejection) {
    && i < |rows| && CheckRow(rows[i], endpoints) == Err(c)
    && forall j | 0 <= j < i :: rows[j].metadata.Ok? && Joined(rows[j], endpoints)
  }

  lemma {:induction false} FirstBadRowExists(rows: seq<Row>, endpoints: Endpoints) returns (i: nat)
    requires !RowsValid(rows, endpoints)
    ensures FirstBadRow(rows, endpoints, i, FirstRowFault(rows, endpoints))
  {
    hide CheckRow, Joined;
    var front := rows[..|rows| - 1];
    if RowsValid(front, endpoints) {
      i := |rows| - 1;
      forall j | 0 <= j < i ensures rows[j].metadata.Ok? && Joined(rows[j], endpoints) {
        assert CheckRow(front[j], endpoints).Ok?;
        RowStandsIff(rows[j], endpoints);
      }
    } else {
      i := FirstBadRowExists(front, endpoints);
      assert forall j | 0 <= j < |front| :: front[j] == rows[j];
    }
  }

  lemma RowStandsIff(row: Row, endpoints: Endpoints)
    ensures CheckRow(row, endpoints).Ok? <==> row.metadata.Ok? && Joined(row, endpoints)
  {
    AcceptedRowIff(row, endpoints);
  }

  /** A collection that is not accepted is rejected with the code of its first bad row, or, when its rows
      stand alone, for a repeated row, a second parent, primary link or target, or a cycle, in this order. */
  lemma FirstFaultIff(rows: seq<Row>, endpoints: Endpoints)
    requires !Acceptable(rows, endpoints)
    ensures !RowsStandAlone(rows, endpoints) ==> exists i: nat :: FirstBadRow(rows, endpoints, i, FirstFault(rows, endpoints))
    ensures RowsStandAlone(rows, endpoints) ==>
              && (FirstFault(rows, endpoints) == DuplicateRelationship <==> !NoRepeats(rows))
              && (FirstFault(rows, endpoints) == MultiplePlacementParents <==> NoRepeats(rows) && !OneParentPerChild(rows))
              && (FirstFault(rows, endpoints) == MultiplePrimaryRelationships <==>
                  NoRepeats(rows) && OneParentPerChild(rows) && !OnePrimaryPerSource(rows))
              && (FirstFault(rows, endpoints) == MultipleResponsibilityTargets <==>
                  NoRepeats(rows) && OneParentPerChild(rows) && OnePrimaryPerSource(rows) && !OneTargetPerRunbook(rows))
              && (FirstFault(rows, endpoints) == RelationshipCycle <==>
                  NoRepeats(rows) && OneParentPerChild(rows) && OnePrimaryPerSource(rows) && OneTargetPerRunbook(rows))
  {
    hide RowsStandAlone, RowsValid, OneParentPerChild, OneTargetPerRunbook, OnePrimaryPerSource, SinglePrimary, SingleValued,
         Linked, Acyclic, FirstRowFault, FirstBadRow;
    StandAloneIff(rows, endpoints);
    assert NoRepeats(rows) <==> DistinctTriplets(rows);
    OnePrimaryIff(rows);
    if !RowsValid(rows, endpoints) {
      var i := FirstBadRowExists(rows, endpoints);
      assert FirstFault(rows, endpoints) == FirstRowFault(rows, endpoints);
    } else if NoRepeats(rows) {
      OneParentIff(rows, endpoints);
      OneTargetIff(rows, endpoints);
    }
  }
}
