/** The relationship registry: which single edges are valid, and which collections of edges. */
module Relationships {
  import opened Wrappers
  import opened Digraphs
  import opened References

  /** A stored endpoint: its kind and `data.network.category` when that is a string. */
  datatype Endpoint = Endpoint(kind: Kind, networkCategory: Option<string>)

  type Endpoints = map<string, Endpoint>

  datatype RelationType =
    | Hosts | OperationsRunbookFor | DependsOn | Supports | Feeds | Exposes
    | Documents | Uses | RelatedTo | AttachedTo | UplinksTo
    | Unregistered(name: string)

  datatype Rejection =
    | UnsupportedRelationType | InvalidTypedReference | SelfReference | InvalidDirection
    | InvalidMetadata | SecretMetadata
    | DanglingTypedReference | KindMismatch | InvalidEndpoint
    | DuplicateRelationship | MultiplePlacementParents | MultipleResponsibilityTargets
    | MultiplePrimaryRelationships | RelationshipCycle

  /** `metadata.get("primary") is True` of the canonical metadata document. */
  datatype Metadata = Metadata(primary: bool)

  /** One stored edge. `metadata` is what `relationship_metadata` makes of the row's own document. */
  datatype Row = Row(fromRef: string, relationType: RelationType, toRef: string,
                     metadata: Result<Metadata, Rejection>)
  {
    function Triplet(): (string, RelationType, string) {
      (fromRef, relationType, toRef)
    }
  }

  const NETWORK_DEVICE_CATEGORIES: set<string> :=
    {"switch", "router", "access_point", "mesh", "firewall", "gateway", "other_device"}

  const ALL_KINDS: set<Kind> :=
    {Host, System, Network, Device, Service, CredentialReference, Runbook, Decision, Project}

  const ASSET_KINDS: set<Kind> := {Host, System, Network, Device, Service}

  const PLACEMENT_PAIRS: set<(Kind, Kind)> := {(Host, System), (Host, Service), (System, Service)}

  predicate IsNetworkDevice(e: Endpoint) {
    e.kind == Network && e.networkCategory.Some? && e.networkCategory.value in NETWORK_DEVICE_CATEGORIES
  }

  function FromKinds(t: RelationType): set<Kind> {
    match t
    case Hosts => {Host, System}
    case OperationsRunbookFor => {Runbook}
    case DependsOn => ASSET_KINDS
    case Supports => {Service}
    case Feeds => {Service}
    case Exposes => {Service}
    case Documents => {Runbook, Decision, Project}
    case Uses => ALL_KINDS
    case RelatedTo => ALL_KINDS
    case AttachedTo => {Host, System, Device}
    case UplinksTo => {Network}
    case Unregistered(_) => {}
  }

  function ToKinds(t: RelationType): set<Kind> {
    match t
    case Hosts => {System, Service}
    case OperationsRunbookFor => {Host, System, Service}
    case DependsOn => ASSET_KINDS
    case Supports => {Service}
    case Feeds => {Service}
    case Exposes => {Service}
    case Documents => ALL_KINDS
    case Uses => ALL_KINDS
    case RelatedTo => ALL_KINDS
    case AttachedTo => {Host, System, Network, Device}
    case UplinksTo => {Network}
    case Unregistered(_) => {}
  }

  predicate PairAllowed(t: RelationType, source: Kind, target: Kind) {
    if t.Hosts? then (source, target) in PLACEMENT_PAIRS
    else source in FromKinds(t) && target in ToKinds(t)
  }

  predicate EndpointsAllowed(t: RelationType, source: Endpoint, target: Endpoint) {
    match t
    case AttachedTo =>
      if source.kind == Device then target.kind in {Host, System, Device} || IsNetworkDevice(target)
      else source.kind in {Host, System} && IsNetworkDevice(target)
    case UplinksTo => IsNetworkDevice(source) && IsNetworkDevice(target)
    case _ => true
  }

  function Resolve(value: string, endpoints: Endpoints): (r: Result<TypedReference, Rejection>)
    ensures r.Ok? ==> r.value.objectId in endpoints && value == Render(r.value)
    ensures r.Ok? ==> endpoints[r.value.objectId].kind == r.value.kind
  {
    match Parse(value)
    case None => Err(InvalidTypedReference)
    case Some(reference) =>
      if reference.objectId !in endpoints then Err(DanglingTypedReference)
      else if endpoints[reference.objectId].kind != reference.kind then Err(KindMismatch)
      else
        ParseIffRendered(value, reference);
        Ok(reference)
  }

  function ValidateRelationship(fromRef: string, t: RelationType, toRef: string, endpoints: Endpoints)
    : Result<(TypedReference, TypedReference), Rejection>
  {
    if t.Unregistered? then Err(UnsupportedRelationType)
    else
      var source :- Resolve(fromRef, endpoints);
      var target :- Resolve(toRef, endpoints);
      if source.objectId == target.objectId then Err(SelfReference)
      else if !PairAllowed(t, source.kind, target.kind) then Err(InvalidDirection)
      else if !EndpointsAllowed(t, endpoints[source.objectId], endpoints[target.objectId]) then Err(InvalidEndpoint)
      else Ok((source, target))
  }

  /** One row on its own: its endpoints, then its metadata. */
  function CheckRow(row: Row, endpoints: Endpoints): Result<Metadata, Rejection> {
    var _ :- ValidateRelationship(row.fromRef, row.relationType, row.toRef, endpoints);
    row.metadata
  }

  predicate RowsValid(rows: seq<Row>, endpoints: Endpoints) {
    forall i | 0 <= i < |rows| :: CheckRow(rows[i], endpoints).Ok?
  }

  // The four dictionaries of sets that the collection passes fill row by row.

  datatype Channel = Placement | Responsibility | Attachment | Uplink

  predicate IsDevice(value: string, endpoints: Endpoints) {
    var r := Parse(value);
    r.Some? && r.value.objectId in endpoints && endpoints[r.value.objectId].kind == Device
  }

  predicate Selects(channel: Channel, row: Row, endpoints: Endpoints) {
    match channel
    case Placement => row.relationType == Hosts
    case Responsibility => row.relationType == OperationsRunbookFor
    case Attachment =>
      row.relationType == AttachedTo && IsDevice(row.fromRef, endpoints) && IsDevice(row.toRef, endpoints)
    case Uplink => row.relationType == UplinksTo
  }

  /** Placement is indexed by the child, every other channel by the source. */
  function KeyOf(channel: Channel, row: Row): string {
    if channel.Placement? then row.toRef else row.fromRef
  }

  function ValueOf(channel: Channel, row: Row): string {
    if channel.Placement? then row.fromRef else row.toRef
  }

  function Extend(g: Graph, channel: Channel, row: Row, endpoints: Endpoints): Graph {
    if Selects(channel, row, endpoints) then AddEdge(g, KeyOf(channel, row), ValueOf(channel, row)) else g
  }

  function Linked(channel: Channel, rows: seq<Row>, endpoints: Endpoints): Graph {
    if rows == [] then map[]
    else Extend(Linked(channel, rows[..|rows| - 1], endpoints), channel, rows[|rows| - 1], endpoints)
  }

  ghost predicate LinkRow(channel: Channel, row: Row, endpoints: Endpoints, key: string, value: string) {
    Selects(channel, row, endpoints) && KeyOf(channel, row) == key && ValueOf(channel, row) == value
  }

  lemma {:induction false} LinkedEdges(channel: Channel, rows: seq<Row>, endpoints: Endpoints, a: string, b: string)
    ensures Edge(Linked(channel, rows, endpoints), a, b) <==>
            exists i :: 0 <= i < |rows| && LinkRow(channel, rows[i], endpoints, a, b)
  {
    if rows != [] {
      var front, last := rows[..|rows| - 1], rows[|rows| - 1];
      LinkedEdges(channel, front, endpoints, a, b);
      if LinkRow(channel, last, endpoints, a, b) {
        assert LinkRow(channel, rows[|rows| - 1], endpoints, a, b);
      }
      if Edge(Linked(channel, front, endpoints), a, b) {
        var i :| 0 <= i < |front| && LinkRow(channel, front[i], endpoints, a, b);
        assert LinkRow(channel, rows[i], endpoints, a, b);
      }
      if exists i :: 0 <= i < |rows| && LinkRow(channel, rows[i], endpoints, a, b) {
        var i :| 0 <= i < |rows| && LinkRow(channel, rows[i], endpoints, a, b);
        if i < |front| {
          assert LinkRow(channel, front[i], endpoints, a, b);
        }
      }
    }
  }

  /** The row adds its target to `primary_by_source[(from_ref, relation_type)]`. */
  predicate IsPrimary(row: Row, source: string, t: RelationType) {
    && row.relationType in {OperationsRunbookFor, AttachedTo, UplinksTo}
    && row.metadata.Ok? && row.metadata.value.primary
    && row.fromRef == source && row.relationType == t
  }

  function Primaries(rows: seq<Row>, source: string, t: RelationType): seq<string> {
    if rows == [] then []
    else
      var front := Primaries(rows[..|rows| - 1], source, t);
      if IsPrimary(rows[|rows| - 1], source, t) then front + [rows[|rows| - 1].toRef] else front
  }

  // What a collection must satisfy.

  ghost predicate DistinctTriplets(rows: seq<Row>) {
    forall i, j | 0 <= i < j < |rows| :: rows[i].Triplet() != rows[j].Triplet()
  }

  /** At most one parent per child, one responsibility target per runbook. */
  ghost predicate SingleValued(channel: Channel, rows: seq<Row>, endpoints: Endpoints) {
    forall i, j | 0 <= i < j < |rows| && Selects(channel, rows[i], endpoints) && Selects(channel, rows[j], endpoints)
                  && KeyOf(channel, rows[i]) == KeyOf(channel, rows[j]) ::
      ValueOf(channel, rows[i]) == ValueOf(channel, rows[j])
  }

  ghost predicate SinglePrimary(rows: seq<Row>) {
    forall i, j, s, t | 0 <= i < j < |rows| && IsPrimary(rows[i], s, t) :: !IsPrimary(rows[j], s, t)
  }

  ghost predicate Acceptable(rows: seq<Row>, endpoints: Endpoints) {
    && RowsValid(rows, endpoints)
    && DistinctTriplets(rows)
    && SingleValued(Placement, rows, endpoints)
    && SinglePrimary(rows)
    && SingleValued(Responsibility, rows, endpoints)
    && Acyclic(Linked(Attachment, rows, endpoints))
    && Acyclic(Linked(Uplink, rows, endpoints))
  }

  lemma AtMostOne(s: set<string>)
    ensures |s| > 1 <==> exists x, y :: x in s && y in s && x != y
  {
    if |s| > 1 {
      var x :| x in s;
      assert |s - {x}| >= 1;
      var y :| y in s - {x};
    }
    if x, y :| x in s && y in s && x != y {
      assert {x, y} <= s;
      assert s == {x, y} + (s - {x, y});
      assert |{x, y}| == 2;
    }
  }

  /** A channel is single-valued exactly when none of its sets holds two members. */
  lemma SingleValuedIff(channel: Channel, rows: seq<Row>, endpoints: Endpoints)
    ensures SingleValued(channel, rows, endpoints) <==>
            forall k :: |Successors(Linked(channel, rows, endpoints), k)| <= 1
  {
    var g := Linked(channel, rows, endpoints);
    forall k | |Successors(g, k)| > 1 ensures !SingleValued(channel, rows, endpoints) {
      AtMostOne(Successors(g, k));
      var x, y :| x in Successors(g, k) && y in Successors(g, k) && x != y;
      assert Edge(g, k, x) && Edge(g, k, y);
      LinkedEdges(channel, rows, endpoints, k, x);
      LinkedEdges(channel, rows, endpoints, k, y);
      var i :| 0 <= i < |rows| && LinkRow(channel, rows[i], endpoints, k, x);
      var j :| 0 <= j < |rows| && LinkRow(channel, rows[j], endpoints, k, y);
      assert i < j || j < i;
    }
    if !SingleValued(channel, rows, endpoints) {
      var i, j :| 0 <= i < j < |rows| && Selects(channel, rows[i], endpoints) && Selects(channel, rows[j], endpoints)
                  && KeyOf(channel, rows[i]) == KeyOf(channel, rows[j])
                  && ValueOf(channel, rows[i]) != ValueOf(channel, rows[j]);
      var k, x, y := KeyOf(channel, rows[i]), ValueOf(channel, rows[i]), ValueOf(channel, rows[j]);
      assert LinkRow(channel, rows[i], endpoints, k, x) && LinkRow(channel, rows[j], endpoints, k, y);
      LinkedEdges(channel, rows, endpoints, k, x);
      LinkedEdges(channel, rows, endpoints, k, y);
      AtMostOne(Successors(g, k));
    }
  }

  lemma {:induction false} PrimariesCount(rows: seq<Row>, s: string, t: RelationType)
    ensures |Primaries(rows, s, t)| > 0 <==> exists i :: 0 <= i < |rows| && IsPrimary(rows[i], s, t)
    ensures |Primaries(rows, s, t)| > 1 <==>
            exists i, j :: 0 <= i < j < |rows| && IsPrimary(rows[i], s, t) && IsPrimary(rows[j], s, t)
  {
    if rows != [] {
      var front, n := rows[..|rows| - 1], |rows| - 1;
      PrimariesCount(front, s, t);
      assert forall i | 0 <= i < n :: front[i] == rows[i];
      if |Primaries(front, s, t)| > 0 {
        var i :| 0 <= i < |front| && IsPrimary(front[i], s, t);
        assert IsPrimary(rows[i], s, t);
      }
      if |Primaries(front, s, t)| > 1 {
        var i, j :| 0 <= i < j < |front| && IsPrimary(front[i], s, t) && IsPrimary(front[j], s, t);
        assert IsPrimary(rows[i], s, t) && IsPrimary(rows[j], s, t);
      }
      if i :| 0 <= i < n && IsPrimary(rows[i], s, t) {
        assert IsPrimary(front[i], s, t);
      }
    }
  }

  lemma SinglePrimaryIff(rows: seq<Row>)
    ensures SinglePrimary(rows) <==> forall s, t :: |Primaries(rows, s, t)| <= 1
  {
    forall s, t | |Primaries(rows, s, t)| > 1 ensures !SinglePrimary(rows) {
      PrimariesCount(rows, s, t);
    }
    if !SinglePrimary(rows) {
      var i, j, s, t :| 0 <= i < j < |rows| && IsPrimary(rows[i], s, t) && IsPrimary(rows[j], s, t);
      PrimariesCount(rows, s, t);
    }
  }

  // Why searching a subgraph is enough.

  /** The whole relation of one type over object ids, as the valid rows state it. */
  ghost predicate ObjectEdge(t: RelationType, rows: seq<Row>, a: string, b: string) {
    exists i :: 0 <= i < |rows| && rows[i].relationType == t && Joins(rows[i], a, b)
  }

  ghost predicate Joins(row: Row, a: string, b: string) {
    && Parse(row.fromRef).Some? && Parse(row.fromRef).value.objectId == a
    && Parse(row.toRef).Some? && Parse(row.toRef).value.objectId == b
  }

  ghost predicate ObjectCycle(t: RelationType, rows: seq<Row>, w: seq<string>) {
    && |w| >= 2 && w[0] == w[|w| - 1]
    && forall i | 0 <= i < |w| - 1 :: ObjectEdge(t, rows, w[i], w[i + 1])
  }

  function RefOf(id: string, endpoints: Endpoints): string
    requires id in endpoints
  {
    Render(TypedReference(endpoints[id].kind, id))
  }

  /** A valid row joins two existing objects by the references of their stored kinds. */
  ghost predicate JoinsByKind(row: Row, endpoints: Endpoints, a: string, b: string) {
    && a in endpoints && b in endpoints
    && row.fromRef == RefOf(a, endpoints) && row.toRef == RefOf(b, endpoints)
    && PairAllowed(row.relationType, endpoints[a].kind, endpoints[b].kind)
    && EndpointsAllowed(row.relationType, endpoints[a], endpoints[b])
  }

  lemma ValidRowJoinsByKind(row: Row, endpoints: Endpoints, a: string, b: string)
    requires CheckRow(row, endpoints).Ok? && Joins(row, a, b)
    ensures JoinsByKind(row, endpoints, a, b)
  {
    hide Parse, PairAllowed, EndpointsAllowed, KindName;
  }

  lemma RefParses(id: string, endpoints: Endpoints)
    requires id in endpoints && id != ""
    ensures Parse(RefOf(id, endpoints)) == Some(TypedReference(endpoints[id].kind, id))
  {
    hide Parse;
    ParseIffRendered(RefOf(id, endpoints), TypedReference(endpoints[id].kind, id));
  }

  lemma ObjectEdgeRow(t: RelationType, rows: seq<Row>, endpoints: Endpoints, a: string, b: string) returns (i: nat)
    requires RowsValid(rows, endpoints) && ObjectEdge(t, rows, a, b)
    ensures i < |rows| && rows[i].relationType == t && JoinsByKind(rows[i], endpoints, a, b) && Joins(rows[i], a, b)
  {
    hide CheckRow, Joins, JoinsByKind;
    i :| 0 <= i < |rows| && rows[i].relationType == t && Joins(rows[i], a, b);
    ValidRowJoinsByKind(rows[i], endpoints, a, b);
  }

  /** On a cycle of `attached_to` every object is a device: a network object has no outgoing edge,
      and a host or system only attaches to network objects. */
  lemma AttachmentCyclesAreDeviceOnly(rows: seq<Row>, endpoints: Endpoints, w: seq<string>, i: nat)
    requires RowsValid(rows, endpoints) && ObjectCycle(AttachedTo, rows, w) && i < |w|
    ensures w[i] in endpoints && endpoints[w[i]].kind == Device
  {
    hide CheckRow, Joins;
    var j := if i == |w| - 1 then 0 else i;
    var next := if j + 1 == |w| - 1 then 0 else j + 1;
    assert w[next] == w[j + 1];
    assert ObjectEdge(AttachedTo, rows, w[j], w[j + 1]);
    assert ObjectEdge(AttachedTo, rows, w[next], w[next + 1]);
    var p := ObjectEdgeRow(AttachedTo, rows, endpoints, w[j], w[j + 1]);
    var q := ObjectEdgeRow(AttachedTo, rows, endpoints, w[next], w[next + 1]);
    assert endpoints[w[j]].kind != Network && endpoints[w[next]].kind != Network;
  }

  /** The channel the cycle search looks at for a type. */
  ghost predicate SearchedBy(channel: Channel, t: RelationType) {
    (channel == Attachment && t == AttachedTo) || (channel == Uplink && t == UplinksTo)
  }

  ghost predicate SearchedEdge(channel: Channel, rows: seq<Row>, endpoints: Endpoints, a: string, b: string) {
    && a in endpoints && b in endpoints
    && Edge(Linked(channel, rows, endpoints), RefOf(a, endpoints), RefOf(b, endpoints))
  }

  lemma ObjectEdgeIsLinked(channel: Channel, t: RelationType, rows: seq<Row>, endpoints: Endpoints, a: string, b: string)
    requires RowsValid(rows, endpoints) && ObjectEdge(t, rows, a, b) && SearchedBy(channel, t)
    requires t == AttachedTo ==> a in endpoints && b in endpoints && endpoints[a].kind == endpoints[b].kind == Device
    ensures SearchedEdge(channel, rows, endpoints, a, b)
  {
    hide CheckRow, Parse, RefOf, Linked;
    var k := ObjectEdgeRow(t, rows, endpoints, a, b);
    assert LinkRow(channel, rows[k], endpoints, RefOf(a, endpoints), RefOf(b, endpoints));
    LinkedEdges(channel, rows, endpoints, RefOf(a, endpoints), RefOf(b, endpoints));
  }

  /** A cycle over objects is a closed walk over the references the search sees. */
  lemma ObjectCycleIsFound(channel: Channel, t: RelationType, rows: seq<Row>, endpoints: Endpoints, w: seq<string>)
    requires RowsValid(rows, endpoints) && ObjectCycle(t, rows, w) && SearchedBy(channel, t)
    ensures !Acyclic(Linked(channel, rows, endpoints))
  {
    hide RowsValid, Linked, RefOf, ObjectEdge;
    forall i | 0 <= i < |w| - 1 ensures SearchedEdge(channel, rows, endpoints, w[i], w[i + 1]) {
      if t == AttachedTo {
        AttachmentCyclesAreDeviceOnly(rows, endpoints, w, i);
        AttachmentCyclesAreDeviceOnly(rows, endpoints, w, i + 1);
      }
      assert ObjectEdge(t, rows, w[i], w[i + 1]);
      ObjectEdgeIsLinked(channel, t, rows, endpoints, w[i], w[i + 1]);
    }
    forall i | 0 <= i < |w| ensures w[i] in endpoints {
      var j := if i == |w| - 1 then 0 else i;
      assert SearchedEdge(channel, rows, endpoints, w[j], w[j + 1]);
    }
    var refs := seq(|w|, i requires 0 <= i < |w| && w[i] in endpoints => RefOf(w[i], endpoints));
    forall i | 0 <= i < |refs| - 1 ensures Edge(Linked(channel, rows, endpoints), refs[i], refs[i + 1]) {
      assert SearchedEdge(channel, rows, endpoints, w[i], w[i + 1]);
    }
    assert ClosedWalk(Linked(channel, rows, endpoints), refs);
  }

  function IdOf(reference: string): string {
    match Parse(reference)
    case None => ""
    case Some(r) => r.objectId
  }

  /** A closed walk over references is a cycle over objects. */
  lemma FoundCycleIsObjectCycle(channel: Channel, t: RelationType, rows: seq<Row>, endpoints: Endpoints, w: seq<string>)
    requires RowsValid(rows, endpoints) && SearchedBy(channel, t)
    requires ClosedWalk(Linked(channel, rows, endpoints), w)
    ensures exists v :: ObjectCycle(t, rows, v)
  {
    hide Linked, Parse;
    var v := seq(|w|, i requires 0 <= i < |w| => IdOf(w[i]));
    forall i | 0 <= i < |v| - 1 ensures ObjectEdge(t, rows, v[i], v[i + 1]) {
      assert Edge(Linked(channel, rows, endpoints), w[i], w[i + 1]);
      LinkedEdges(channel, rows, endpoints, w[i], w[i + 1]);
      var k :| 0 <= k < |rows| && LinkRow(channel, rows[k], endpoints, w[i], w[i + 1]);
      assert CheckRow(rows[k], endpoints).Ok?;
      assert Joins(rows[k], v[i], v[i + 1]);
    }
    assert ObjectCycle(t, rows, v);
  }

  /** Among valid rows the device-to-device search of `attached_to`, and the search of `uplinks_to`,
      decide whether the whole relation over all objects has a cycle. */
  lemma SubgraphSearchIsEnough(channel: Channel, t: RelationType, rows: seq<Row>, endpoints: Endpoints)
    requires RowsValid(rows, endpoints) && SearchedBy(channel, t)
    ensures Acyclic(Linked(channel, rows, endpoints)) <==> forall w :: !ObjectCycle(t, rows, w)
  {
    hide RowsValid, ObjectCycle, ClosedWalk, Linked;
    forall w | ObjectCycle(t, rows, w) ensures !Acyclic(Linked(channel, rows, endpoints)) {
      ObjectCycleIsFound(channel, t, rows, endpoints, w);
    }
    if !Acyclic(Linked(channel, rows, endpoints)) {
      var w :| ClosedWalk(Linked(channel, rows, endpoints), w);
      FoundCycleIsObjectCycle(channel, t, rows, endpoints, w);
    }
  }

  /** An accepted collection has no cycle anywhere in `attached_to` (hosts, systems and networks
      included) nor in `uplinks_to`. */
  lemma AcceptedIsAcyclic(rows: seq<Row>, endpoints: Endpoints)
    requires Acceptable(rows, endpoints)
    ensures forall w :: !ObjectCycle(AttachedTo, rows, w) && !ObjectCycle(UplinksTo, rows, w)
  {
    hide RowsValid, ObjectCycle, Acyclic, Linked;
    SubgraphSearchIsEnough(Attachment, AttachedTo, rows, endpoints);
    SubgraphSearchIsEnough(Uplink, UplinksTo, rows, endpoints);
  }
}
