/** The closed attention vocabulary and the signals each authorized input gives.

    A signal function lists, in call order, the categories an input is judged for and the items it
    raises. What the derivation keeps of them is in module Attention. */
module AttentionSignals {
  import opened Wrappers
  import opened Ordering
  import opened Texts

  datatype Category =
    | RecordIntegrity | Access | Monitoring | Release | Lifecycle | Endpoint | Placement | RelationshipIntegrity
    | Provenance | Runbook | Knowledge | SourceCoverage | TaskDeadline

  const CATEGORIES: seq<Category> :=
    [RecordIntegrity, Access, Monitoring, Release, Lifecycle, Endpoint, Placement, RelationshipIntegrity,
     Provenance, Runbook, Knowledge, SourceCoverage, TaskDeadline]

  datatype Severity = Critical | Warning | Info

  const SEVERITIES: seq<Severity> := [Critical, Warning, Info]

  datatype SignalState = Current | Stale | Unknown | NotApplicable

  datatype Reason =
    | RecordCorrupt | AccessOwnerMissing
    | MonitoringObservedDown | MonitoringCheckError | MonitoringConfigInvalid | MonitoringObservationStale
    | MonitoringNeverObserved
    | ReleaseUpdateAvailable
    | LifecycleHealthDown | LifecycleHealthDegraded | LifecycleHealthUnknown | LifecycleMaintenance
    | EndpointTargetUnresolved
    | PlacementMissing | PlacementRelationshipInvalid
    | RelationshipTargetUnresolved | RelationshipPrimaryAmbiguous | KnowledgeRelationshipInvalid
    | RelationshipDomainInvalid
    | ProvenanceStale | ProvenanceUnverified
    | RunbookReviewOverdue | RunbookUnverified | RunbookDeprecatedUnresolved | CriticalServiceRunbookMissing
    | KnowledgeReviewOverdue | KnowledgeReviewUnscheduled
    | CoverageImportDrift | CoverageMappingAmbiguous | CoverageNotCollected
    | TaskDeadlineOverdue

  /** The registry, in its published order. */
  const REASONS: seq<Reason> :=
    [RecordCorrupt, AccessOwnerMissing,
     MonitoringObservedDown, MonitoringCheckError, MonitoringConfigInvalid, MonitoringObservationStale,
     MonitoringNeverObserved,
     ReleaseUpdateAvailable,
     LifecycleHealthDown, LifecycleHealthDegraded, LifecycleHealthUnknown, LifecycleMaintenance,
     EndpointTargetUnresolved,
     PlacementMissing, PlacementRelationshipInvalid,
     RelationshipTargetUnresolved, RelationshipPrimaryAmbiguous, KnowledgeRelationshipInvalid,
     RelationshipDomainInvalid,
     ProvenanceStale, ProvenanceUnverified,
     RunbookReviewOverdue, RunbookUnverified, RunbookDeprecatedUnresolved, CriticalServiceRunbookMissing,
     KnowledgeReviewOverdue, KnowledgeReviewUnscheduled,
     CoverageImportDrift, CoverageMappingAmbiguous, CoverageNotCollected,
     TaskDeadlineOverdue]

  datatype Spec = Spec(rank: nat, category: Category, severity: Severity, state: SignalState)

  /** The immutable meaning of one reason; `rank` is its position in the registry. */
  function SpecOf(r: Reason): Spec {
    match r
    case RecordCorrupt => Spec(0, RecordIntegrity, Critical, Current)
    case AccessOwnerMissing => Spec(1, Access, Warning, Current)
    case MonitoringObservedDown => Spec(2, Monitoring, Critical, Current)
    case MonitoringCheckError => Spec(3, Monitoring, Warning, Current)
    case MonitoringConfigInvalid => Spec(4, Monitoring, Warning, Unknown)
    case MonitoringObservationStale => Spec(5, Monitoring, Warning, Stale)
    case MonitoringNeverObserved => Spec(6, Monitoring, Info, Unknown)
    case ReleaseUpdateAvailable => Spec(7, Release, Warning, Current)
    case LifecycleHealthDown => Spec(8, Lifecycle, Critical, Current)
    case LifecycleHealthDegraded => Spec(9, Lifecycle, Warning, Current)
    case LifecycleHealthUnknown => Spec(10, Lifecycle, Info, Unknown)
    case LifecycleMaintenance => Spec(11, Lifecycle, Info, Current)
    case EndpointTargetUnresolved => Spec(12, Endpoint, Warning, Unknown)
    case PlacementMissing => Spec(13, Placement, Warning, Unknown)
    case PlacementRelationshipInvalid => Spec(14, Placement, Warning, Current)
    case RelationshipTargetUnresolved => Spec(15, RelationshipIntegrity, Warning, Unknown)
    case RelationshipPrimaryAmbiguous => Spec(16, RelationshipIntegrity, Warning, Current)
    case KnowledgeRelationshipInvalid => Spec(17, RelationshipIntegrity, Warning, Current)
    case RelationshipDomainInvalid => Spec(18, RelationshipIntegrity, Warning, Current)
    case ProvenanceStale => Spec(19, Provenance, Warning, Stale)
    case ProvenanceUnverified => Spec(20, Provenance, Info, Unknown)
    case RunbookReviewOverdue => Spec(21, Runbook, Warning, Stale)
    case RunbookUnverified => Spec(22, Runbook, Warning, Unknown)
    case RunbookDeprecatedUnresolved => Spec(23, Runbook, Info, Current)
    case CriticalServiceRunbookMissing => Spec(24, Runbook, Warning, Unknown)
    case KnowledgeReviewOverdue => Spec(25, Knowledge, Warning, Stale)
    case KnowledgeReviewUnscheduled => Spec(26, Knowledge, Info, Unknown)
    case CoverageImportDrift => Spec(27, SourceCoverage, Warning, Stale)
    case CoverageMappingAmbiguous => Spec(28, SourceCoverage, Warning, Current)
    case CoverageNotCollected => Spec(29, SourceCoverage, Info, Unknown)
    case TaskDeadlineOverdue => Spec(30, TaskDeadline, Warning, Current)
  }

  function Rank(r: Reason): nat {
    SpecOf(r).rank
  }

  function CategoryRank(c: Category): nat {
    match c
    case RecordIntegrity => 0
    case Access => 1
    case Monitoring => 2
    case Release => 3
    case Lifecycle => 4
    case Endpoint => 5
    case Placement => 6
    case RelationshipIntegrity => 7
    case Provenance => 8
    case Runbook => 9
    case Knowledge => 10
    case SourceCoverage => 11
    case TaskDeadline => 12
  }

  function SeverityRank(s: Severity): nat {
    match s
    case Critical => 0
    case Warning => 1
    case Info => 2
  }

  /** Ranks are positions, so every list is complete and free of repeats. */
  lemma RankIsPosition(r: Reason)
    ensures Rank(r) < |REASONS| == 31 && REASONS[Rank(r)] == r
  {
  }

  lemma RankIsSmall(r: Reason)
    ensures Rank(r) < 31
  {
  }

  lemma RankIsInjective(a: Reason, b: Reason)
    requires Rank(a) == Rank(b)
    ensures a == b
  {
    RankIsPosition(a);
    RankIsPosition(b);
  }

  lemma CategoryRankIsPosition(c: Category)
    ensures CategoryRank(c) < |CATEGORIES| == 13 && CATEGORIES[CategoryRank(c)] == c
  {
  }

  lemma SeverityRankIsPosition(s: Severity)
    ensures SeverityRank(s) < |SEVERITIES| == 3 && SEVERITIES[SeverityRank(s)] == s
  {
  }

  // Inputs.

  /** A value of a stored document: a text or anything else. */
  datatype Value = Text(text: string) | NotText

  datatype MonitoringView = MonitoringView(enabled: bool, diagnostic: Option<string>, freshness: Option<string>,
                                           state: Option<string>, observedState: Option<string>,
                                           errorCode: Option<string>, lastCheckedAt: Option<string>)

  datatype ReleaseView = ReleaseView(enabled: bool, status: Option<string>, lastSuccessAt: Option<string>)

  datatype Ownership = Owned | Ownerless

  datatype Object = Object(objectId: string, kind: string, caption: string, lifecycle: Option<string>,
                           health: Option<string>, recordState: string, placementState: Option<string>,
                           observedAt: Option<string>, verifiedAt: Option<string>, staleAfter: Option<string>,
                           data: map<string, Value>, monitoring: Option<MonitoringView>, release: Option<ReleaseView>,
                           hasSuitableRunbook: bool, owner: Option<Ownership>, adoptionAvailable: bool)

  datatype Diagnostic = Diagnostic(objectId: string, code: string, relationType: Option<string>)

  datatype CoverageRow = CoverageRow(objectId: string, state: string, observedAt: string)

  datatype Task = Task(projectId: string, recordId: string, caption: string, dueAt: Option<string>,
                       effectiveStatus: Option<string>, archived: bool)

  type Labels = map<string, Object>

  /** The clock, the timestamp parser and the closed vocabulary of supporting codes. */
  datatype Context = Context(now: int, parse: string -> Option<int>, codes: set<string>)

  // Items and events.

  datatype Scope = ObjectScope | CatalogScope | RecordScope

  datatype Target = Target(scope: Scope, ref: string, objectId: Option<string>, kind: Option<string>,
                           caption: Option<string>, detailPath: Option<string>, recordId: Option<string>,
                           projectLabel: Option<string>)

  datatype Item = Item(reason: Reason, target: Target, code: Option<string>, observedAt: Option<string>)
  {
    function Category(): Category {
      SpecOf(reason).category
    }

    function Severity(): Severity {
      SpecOf(reason).severity
    }

    function State(): SignalState {
      SpecOf(reason).state
    }

    function Rank(): nat {
      SpecOf(reason).rank
    }
  }

  datatype Event = Judged(category: Category) | Raised(item: Item)

  function ObjectTarget(o: Object): Target {
    Target(ObjectScope, o.kind + ":" + o.objectId, Some(o.objectId), Some(o.kind), Some(o.caption),
           Some("/objects/" + o.objectId), None, None)
  }

  function CatalogTarget(): Target {
    Target(CatalogScope, "catalog:source-coverage", None, None, None, Some("/attention?category=source_coverage"), None, None)
  }

  function TaskTarget(t: Task, project: Object): Target {
    Target(RecordScope, "project_record:" + t.recordId, Some(project.objectId), Some(project.kind), Some(t.caption),
           Some("/projects/" + project.objectId + "/workspace/record/" + t.recordId), Some(t.recordId), Some(project.caption))
  }

  function Raise(o: Object, reason: Reason, code: Option<string>, observedAt: Option<string>): Event {
    Raised(Item(reason, ObjectTarget(o), code, observedAt))
  }

  // Small readings.

  predicate IsAssetKind(kind: string) {
    kind in {"host", "system", "network", "device", "service"}
  }

  function DataText(o: Object, key: string): Option<string> {
    if key in o.data && o.data[key].Text? then Some(o.data[key].text) else None
  }

  /** `_text`. */
  function Trimmed(text: Option<string>): Option<string> {
    if text.Some? && Strip(text.value) != "" then Some(Strip(text.value)) else None
  }

  /** `_detail`. */
  function Code(text: Option<string>, ctx: Context): Option<string> {
    if text.Some? && text.value in ctx.codes then text else None
  }

  /** `_is_past`: a malformed timestamp is never past. */
  predicate IsPast(at: Option<string>, ctx: Context) {
    at.Some? && ctx.parse(at.value).Some? && ctx.parse(at.value).value <= ctx.now
  }

  predicate StatusIn(o: Object, key: string, allowed: set<string>) {
    DataText(o, key).Some? ==> DataText(o, key).value in allowed
  }

  predicate IsLive(o: Object) {
    if IsAssetKind(o.kind) then o.lifecycle == Some("active")
    else if o.kind == "runbook" then StatusIn(o, "runbook_status", {"draft", "approved", "active", "deprecated"})
    else if o.kind == "decision" then StatusIn(o, "decision_status", {"proposed", "accepted"})
    else if o.kind == "project" then StatusIn(o, "project_status", {"planned", "active", "paused"})
    else true
  }

  predicate IsCounted(id: string, labels: Labels) {
    id in labels && labels[id].recordState == "valid" && IsLive(labels[id])
  }

  // The signals of one object.

  function AccessSignals(o: Object): seq<Event> {
    match o.owner
    case None => []
    case Some(Owned) => [Judged(Access)]
    case Some(Ownerless) =>
      var code := if o.adoptionAvailable then "adoption_available" else "catalog_owner_adoption_required";
      [Judged(Access), Raise(o, AccessOwnerMissing, Some(code), None)]
  }

  function PlacementSignals(o: Object): seq<Event> {
    if o.placementState == None then []
    else if o.placementState == Some("unknown") then [Judged(Placement), Raise(o, PlacementMissing, None, None)]
    else [Judged(Placement)]
  }

  function HealthReason(o: Object): Option<Reason> {
    if o.health == Some("down") then Some(LifecycleHealthDown)
    else if o.health == Some("degraded") then Some(LifecycleHealthDegraded)
    else if o.health == Some("unknown") then Some(LifecycleHealthUnknown)
    else if o.health == Some("maintenance") then Some(LifecycleMaintenance)
    else None
  }

  function LifecycleSignals(o: Object): seq<Event> {
    if !IsAssetKind(o.kind) then []
    else [Judged(Lifecycle)]
         + (match HealthReason(o)
            case None => []
            case Some(reason) => [Raise(o, reason, o.health, None)])
  }

  predicate ConfigInvalid(m: MonitoringView) {
    m.diagnostic == Some("invalid_monitoring_config")
  }

  function ObservationSignals(o: Object, m: MonitoringView, ctx: Context): seq<Event> {
    if o.health == Some("maintenance") then []
    else if m.freshness == Some("pending") then [Raise(o, MonitoringNeverObserved, None, None)]
    else if m.freshness == Some("stale") then
      [Raise(o, MonitoringObservationStale, Code(m.observedState, ctx), m.lastCheckedAt)]
    else if m.state == Some("down") then [Raise(o, MonitoringObservedDown, Code(m.errorCode, ctx), m.lastCheckedAt)]
    else if m.state == Some("check_error") then [Raise(o, MonitoringCheckError, Code(m.errorCode, ctx), m.lastCheckedAt)]
    else []
  }

  function MonitoringSignals(o: Object, ctx: Context): seq<Event> {
    if o.monitoring == None then []
    else
      var m := o.monitoring.value;
      if !m.enabled && !ConfigInvalid(m) then []
      else
        [Judged(Monitoring), Judged(Endpoint)]
        + if ConfigInvalid(m) then [Raise(o, MonitoringConfigInvalid, Some("invalid_monitoring_config"), None)]
          else (if m.diagnostic.Some? then [Raise(o, EndpointTargetUnresolved, m.diagnostic, None)] else [])
               + ObservationSignals(o, m, ctx)
  }

  function ReleaseSignals(o: Object): seq<Event> {
    if o.kind != "service" || o.release == None || !o.release.value.enabled then []
    else if o.release.value.status == Some("update_available") then
      [Judged(Release), Raise(o, ReleaseUpdateAvailable, None, o.release.value.lastSuccessAt)]
    else [Judged(Release)]
  }

  function ProvenanceSignals(o: Object, ctx: Context): seq<Event> {
    if IsPast(o.staleAfter, ctx) then
      var seen := if o.verifiedAt.Some? && o.verifiedAt.value != "" then o.verifiedAt else o.observedAt;
      [Judged(Provenance), Raise(o, ProvenanceStale, None, seen)]
    else if o.verifiedAt == None then [Judged(Provenance), Raise(o, ProvenanceUnverified, None, None)]
    else [Judged(Provenance)]
  }

  predicate IsRunbookStatus(status: string) {
    status in {"draft", "approved", "active", "deprecated", "superseded", "retired"}
  }

  function RunbookSignals(o: Object, ctx: Context): seq<Event> {
    if o.kind == "service" then
      if DataText(o, "criticality") != Some("critical") then []
      else if !o.hasSuitableRunbook then [Judged(Runbook), Raise(o, CriticalServiceRunbookMissing, None, None)]
      else [Judged(Runbook)]
    else if o.kind != "runbook" then []
    else
      var status := DataText(o, "runbook_status");
      var code := if status.Some? && IsRunbookStatus(status.value) then Code(status, ctx) else None;
      var reviewAfter := Trimmed(DataText(o, "review_after"));
      if IsPast(reviewAfter, ctx) then [Judged(Runbook), Raise(o, RunbookReviewOverdue, code, reviewAfter)]
      else if (status == Some("approved") || status == Some("active")) && Trimmed(DataText(o, "last_verified_at")) == None then
        [Judged(Runbook), Raise(o, RunbookUnverified, code, None)]
      else if status == Some("deprecated") && Trimmed(DataText(o, "deprecation_rationale")) == None
              && Trimmed(DataText(o, "successor_recommendation")) == None then
        [Judged(Runbook), Raise(o, RunbookDeprecatedUnresolved, code, None)]
      else [Judged(Runbook)]
  }

  function KnowledgeSignals(o: Object, ctx: Context): seq<Event> {
    if o.kind != "decision" && o.kind != "project" then []
    else
      var status := DataText(o, if o.kind == "decision" then "decision_status" else "project_status");
      var current := if o.kind == "decision" then "accepted" else "active";
      var reviewAfter := Trimmed(DataText(o, "review_after"));
      if IsPast(reviewAfter, ctx) then
        [Judged(Knowledge), Raise(o, KnowledgeReviewOverdue, Code(status, ctx), reviewAfter)]
      else if reviewAfter == None && status == Some(current) then
        [Judged(Knowledge), Raise(o, KnowledgeReviewUnscheduled, Code(status, ctx), None)]
      else [Judged(Knowledge)]
  }

  function ValidRecordSignals(o: Object, ctx: Context): seq<Event> {
    [Judged(RelationshipIntegrity)] + PlacementSignals(o) + LifecycleSignals(o) + MonitoringSignals(o, ctx)
    + ReleaseSignals(o) + ProvenanceSignals(o, ctx) + RunbookSignals(o, ctx) + KnowledgeSignals(o, ctx)
  }

  function CorruptRecordSignals(o: Object, ctx: Context): seq<Event> {
    [Raise(o, RecordCorrupt, None, None)]
    + if IsLive(o) && o.monitoring.Some? && ConfigInvalid(o.monitoring.value) then MonitoringSignals(o, ctx) else []
  }

  function ObjectSignals(o: Object, ctx: Context): seq<Event> {
    AccessSignals(o) + [Judged(RecordIntegrity)]
    + if o.recordState != "valid" then CorruptRecordSignals(o, ctx)
      else if IsLive(o) then ValidRecordSignals(o, ctx)
      else []
  }

  /** Every item is about the object, and maintenance silences what was only observed. */
  ghost predicate IsAbout(events: seq<Event>, o: Object) {
    forall item | Raised(item) in events ::
      item.target == ObjectTarget(o)
      && (o.health == Some("maintenance") && item.Category() == Monitoring ==> item.reason == MonitoringConfigInvalid)
  }

  lemma MonitoringIsAbout(o: Object, ctx: Context)
    ensures IsAbout(MonitoringSignals(o, ctx), o)
    ensures o.monitoring.Some? && ConfigInvalid(o.monitoring.value) ==>
              forall item | Raised(item) in MonitoringSignals(o, ctx) :: item.reason == MonitoringConfigInvalid
  {
    hide Code;
  }

  lemma StateIsAbout(o: Object)
    ensures IsAbout(PlacementSignals(o), o) && IsAbout(LifecycleSignals(o), o) && IsAbout(ReleaseSignals(o), o)
  {
  }

  lemma ReviewIsAbout(o: Object, ctx: Context)
    ensures IsAbout(ProvenanceSignals(o, ctx), o) && IsAbout(KnowledgeSignals(o, ctx), o)
  {
    hide IsPast, Code, DataText, Trimmed;
  }

  lemma RunbookIsAbout(o: Object, ctx: Context)
    ensures IsAbout(RunbookSignals(o, ctx), o)
  {
    hide IsPast, Code, DataText, Trimmed;
  }

  lemma ValidRecordIsAbout(o: Object, ctx: Context)
    ensures IsAbout(ValidRecordSignals(o, ctx), o)
  {
    hide PlacementSignals, LifecycleSignals, MonitoringSignals, ReleaseSignals, ProvenanceSignals, RunbookSignals,
         KnowledgeSignals;
    MonitoringIsAbout(o, ctx);
    StateIsAbout(o);
    ReviewIsAbout(o, ctx);
    RunbookIsAbout(o, ctx);
  }

  /** What an object declares about itself never becomes an incident it did not intend: one that is
      not live is only judged for access and record integrity, a corrupt one raises no more than
      those and its invalid monitoring document, and declared maintenance silences observations. */
  lemma QuietUnlessLive(o: Object, ctx: Context, item: Item)
    requires Raised(item) in ObjectSignals(o, ctx)
    ensures item.target == ObjectTarget(o)
    ensures !IsLive(o) ==> item.reason in {AccessOwnerMissing, RecordCorrupt}
    ensures o.recordState != "valid" ==> item.reason in {AccessOwnerMissing, RecordCorrupt, MonitoringConfigInvalid}
    ensures o.health == Some("maintenance") && item.Category() == Monitoring ==> item.reason == MonitoringConfigInvalid
  {
    hide IsLive, MonitoringSignals, ValidRecordSignals;
    MonitoringIsAbout(o, ctx);
    ValidRecordIsAbout(o, ctx);
  }

  // The signals of the other inputs.

  predicate TaskCounts(t: Task, labels: Labels) {
    IsCounted(t.projectId, labels) && labels[t.projectId].kind == "project" && !t.archived
  }

  predicate DueIsRead(t: Task) {
    t.dueAt.Some? && t.dueAt.value != "" && t.effectiveStatus != Some("done")
  }

  /** The due date of a counted task cannot be read; the derivation raises. */
  predicate TaskFails(t: Task, labels: Labels, ctx: Context) {
    TaskCounts(t, labels) && DueIsRead(t) && ctx.parse(t.dueAt.value) == None
  }

  predicate IsOverdue(t: Task, ctx: Context) {
    DueIsRead(t) && ctx.parse(t.dueAt.value).Some? && ctx.parse(t.dueAt.value).value < ctx.now
  }

  function TaskSignals(t: Task, labels: Labels, ctx: Context): seq<Event> {
    if !TaskCounts(t, labels) then []
    else if IsOverdue(t, ctx) then
      [Judged(TaskDeadline), Raised(Item(TaskDeadlineOverdue, TaskTarget(t, labels[t.projectId]), None, None))]
    else [Judged(TaskDeadline)]
  }

  function DiagnosticReason(d: Diagnostic, kind: string): Reason {
    if d.code == "dangling_typed_reference" then RelationshipTargetUnresolved
    else if d.relationType == Some("hosts") || d.code == "multiple_placement_parents" then PlacementRelationshipInvalid
    else if d.code == "multiple_primary_relationships" then RelationshipPrimaryAmbiguous
    else if kind in {"runbook", "decision", "project"} then KnowledgeRelationshipInvalid
    else RelationshipDomainInvalid
  }

  function DiagnosticSignals(d: Diagnostic, labels: Labels): seq<Event> {
    if !IsCounted(d.objectId, labels) then []
    else
      var o := labels[d.objectId];
      [Raise(o, DiagnosticReason(d, o.kind), Some(d.code), None)]
  }

  function CoverageReason(state: string): Option<Reason> {
    if state == "source_changed_since_import" then Some(CoverageImportDrift)
    else if state == "ambiguous_mapping" || state == "duplicate_mapping" then Some(CoverageMappingAmbiguous)
    else None
  }

  function CoverageSignals(row: CoverageRow, labels: Labels): seq<Event> {
    if !IsCounted(row.objectId, labels) then []
    else
      [Judged(SourceCoverage)]
      + match CoverageReason(row.state)
        case None => []
        case Some(reason) => [Raise(labels[row.objectId], reason, Some(row.state), Some(row.observedAt))]
  }
}
