/** Which reason each authorized input gives, and for what it is judged, read off the input alone. */
module AttentionReadings {
  import opened Wrappers
  import opened Ordering
  import opened Texts
  import opened AttentionSignals

  // Small readings.

  /** The timestamp can be read and is not after the clock. */
  ghost predicate Past(at: Option<string>, ctx: Context) {
    exists text, t :: at == Some(text) && ctx.parse(text) == Some(t) && t <= ctx.now
  }

  ghost predicate HasText(o: Object, key: string, text: string) {
    key in o.data && o.data[key] == Text(text)
  }

  /** The field holds a text that is more than white space; `text` is its trimmed form. */
  ghost predicate HasTrimmed(o: Object, key: string, text: string) {
    text != "" && exists full :: HasText(o, key, full) && text == Strip(full)
  }

  ghost predicate LacksText(o: Object, key: string) {
    forall text :: !HasTrimmed(o, key, text)
  }

  ghost predicate PastField(o: Object, key: string, ctx: Context) {
    exists text :: HasTrimmed(o, key, text) && Past(Some(text), ctx)
  }

  /** A supporting code is shown only when it is in the closed vocabulary. */
  ghost predicate CodeIs(code: Option<string>, text: Option<string>, ctx: Context) {
    && (code.Some? ==> code == text && code.value in ctx.codes)
    && (code == None ==> text == None || text.value !in ctx.codes)
  }

  ghost predicate FieldIs(field: Option<string>, o: Object, key: string) {
    if field == None then forall text :: !HasText(o, key, text) else HasText(o, key, field.value)
  }

  predicate IsAsset(kind: string) {
    kind == "host" || kind == "system" || kind == "network" || kind == "device" || kind == "service"
  }

  /** Active assets; runbooks, decisions and projects that are not closed; and everything of another kind. */
  ghost predicate Live(o: Object) {
    && (IsAsset(o.kind) ==> o.lifecycle == Some("active"))
    && (o.kind == "runbook" ==> forall s | HasText(o, "runbook_status", s) ::
          s == "draft" || s == "approved" || s == "active" || s == "deprecated")
    && (o.kind == "decision" ==> forall s | HasText(o, "decision_status", s) :: s == "proposed" || s == "accepted")
    && (o.kind == "project" ==> forall s | HasText(o, "project_status", s) :: s == "planned" || s == "active" || s == "paused")
  }

  ghost predicate Qualifies(o: Object) {
    o.recordState == "valid" && Live(o)
  }

  ghost predicate Misconfigured(o: Object) {
    o.monitoring.Some? && o.monitoring.value.diagnostic == Some("invalid_monitoring_config")
  }

  /** A counted object with enabled monitoring that is configured. */
  ghost predicate Watched(o: Object) {
    Qualifies(o) && o.monitoring.Some? && o.monitoring.value.enabled && !Misconfigured(o)
  }

  /** Watched, and not in declared maintenance. */
  ghost predicate Observed(o: Object) {
    Watched(o) && o.health != Some("maintenance")
  }

  ghost predicate FreshlyObserved(o: Object) {
    Observed(o) && o.monitoring.value.freshness != Some("pending") && o.monitoring.value.freshness != Some("stale")
  }

  ghost predicate HasRelease(o: Object) {
    Qualifies(o) && o.kind == "service" && o.release.Some? && o.release.value.enabled
  }

  ghost predicate RunbookCounts(o: Object) {
    Qualifies(o) && o.kind == "runbook"
  }

  /** The key of the status of a decision or project. */
  function StatusKey(o: Object): string {
    if o.kind == "decision" then "decision_status" else "project_status"
  }

  ghost predicate KnowledgeCounts(o: Object) {
    Qualifies(o) && (o.kind == "decision" || o.kind == "project")
  }

  ghost predicate InUse(o: Object) {
    (o.kind == "decision" && HasText(o, "decision_status", "accepted")) || (o.kind == "project" && HasText(o, "project_status", "active"))
  }

  /** A runbook status of the vocabulary, as a code. */
  ghost predicate RunbookCodeIs(code: Option<string>, o: Object, ctx: Context) {
    && (code.Some? ==> HasText(o, "runbook_status", code.value) && IsRunbookStatus(code.value) && code.value in ctx.codes)
    && (code == None ==> forall s | HasText(o, "runbook_status", s) :: !IsRunbookStatus(s) || s !in ctx.codes)
  }

  ghost predicate StatusCodeIs(code: Option<string>, o: Object, key: string, ctx: Context) {
    exists status :: FieldIs(status, o, key) && CodeIs(code, status, ctx)
  }

  ghost predicate Bare(code: Option<string>, at: Option<string>) {
    code == None && at == None
  }

  // The reasons of an object.

  /** The object gives the reason, with this code and this time. */
  ghost predicate Gives(o: Object, reason: Reason, code: Option<string>, at: Option<string>, ctx: Context) {
    match reason
    case RecordCorrupt => o.recordState != "valid" && Bare(code, at)
    case AccessOwnerMissing =>
      o.owner == Some(Ownerless) && at == None
      && code == Some(if o.adoptionAvailable then "adoption_available" else "catalog_owner_adoption_required")
    case MonitoringConfigInvalid => Live(o) && Misconfigured(o) && code == Some("invalid_monitoring_config") && at == None
    case EndpointTargetUnresolved =>
      Watched(o) && o.monitoring.value.diagnostic.Some? && code == o.monitoring.value.diagnostic && at == None
    case MonitoringNeverObserved => Observed(o) && o.monitoring.value.freshness == Some("pending") && Bare(code, at)
    case MonitoringObservationStale =>
      Observed(o) && o.monitoring.value.freshness == Some("stale") && CodeIs(code, o.monitoring.value.observedState, ctx)
      && at == o.monitoring.value.lastCheckedAt
    case MonitoringObservedDown =>
      FreshlyObserved(o) && o.monitoring.value.state == Some("down") && CodeIs(code, o.monitoring.value.errorCode, ctx)
      && at == o.monitoring.value.lastCheckedAt
    case MonitoringCheckError =>
      FreshlyObserved(o) && o.monitoring.value.state == Some("check_error") && CodeIs(code, o.monitoring.value.errorCode, ctx)
      && at == o.monitoring.value.lastCheckedAt
    case ReleaseUpdateAvailable =>
      HasRelease(o) && o.release.value.status == Some("update_available") && code == None && at == o.release.value.lastSuccessAt
    case LifecycleHealthDown => Qualifies(o) && IsAsset(o.kind) && o.health == Some("down") && code == o.health && at == None
    case LifecycleHealthDegraded => Qualifies(o) && IsAsset(o.kind) && o.health == Some("degraded") && code == o.health && at == None
    case LifecycleHealthUnknown => Qualifies(o) && IsAsset(o.kind) && o.health == Some("unknown") && code == o.health && at == None
    case LifecycleMaintenance => Qualifies(o) && IsAsset(o.kind) && o.health == Some("maintenance") && code == o.health && at == None
    case PlacementMissing => Qualifies(o) && o.placementState == Some("unknown") && Bare(code, at)
    case ProvenanceStale =>
      Qualifies(o) && Past(o.staleAfter, ctx) && code == None
      && at == if o.verifiedAt == None || o.verifiedAt == Some("") then o.observedAt else o.verifiedAt
    case ProvenanceUnverified => Qualifies(o) && !Past(o.staleAfter, ctx) && o.verifiedAt == None && Bare(code, at)
    case CriticalServiceRunbookMissing =>
      Qualifies(o) && o.kind == "service" && HasText(o, "criticality", "critical") && !o.hasSuitableRunbook && Bare(code, at)
    case RunbookReviewOverdue =>
      RunbookCounts(o) && PastField(o, "review_after", ctx) && RunbookCodeIs(code, o, ctx)
      && at.Some? && HasTrimmed(o, "review_after", at.value)
    case RunbookUnverified =>
      RunbookCounts(o) && !PastField(o, "review_after", ctx)
      && (HasText(o, "runbook_status", "approved") || HasText(o, "runbook_status", "active"))
      && LacksText(o, "last_verified_at") && RunbookCodeIs(code, o, ctx) && at == None
    case RunbookDeprecatedUnresolved =>
      RunbookCounts(o) && !PastField(o, "review_after", ctx) && HasText(o, "runbook_status", "deprecated")
      && LacksText(o, "deprecation_rationale") && LacksText(o, "successor_recommendation")
      && RunbookCodeIs(code, o, ctx) && at == None
    case KnowledgeReviewOverdue =>
      KnowledgeCounts(o) && PastField(o, "review_after", ctx) && StatusCodeIs(code, o, StatusKey(o), ctx)
      && at.Some? && HasTrimmed(o, "review_after", at.value)
    case KnowledgeReviewUnscheduled =>
      KnowledgeCounts(o) && LacksText(o, "review_after") && InUse(o) && StatusCodeIs(code, o, StatusKey(o), ctx) && at == None
    case _ => false
  }

  // The parts of the signals.

  lemma PastIff(at: Option<string>, ctx: Context)
    ensures IsPast(at, ctx) <==> Past(at, ctx)
  {
  }

  lemma TextIff(o: Object, key: string, text: string)
    ensures DataText(o, key) == Some(text) <==> HasText(o, key, text)
  {
  }

  lemma TrimmedIff(o: Object, key: string, text: string)
    ensures Trimmed(DataText(o, key)) == Some(text) <==> HasTrimmed(o, key, text)
    ensures Trimmed(DataText(o, key)) == None <==> LacksText(o, key)
  {
    hide Strip;
    var full := DataText(o, key);
    if full.Some? {
      assert HasText(o, key, full.value);
      assert Strip(full.value) != "" ==> HasTrimmed(o, key, Strip(full.value));
    }
  }

  lemma PastFieldIff(o: Object, key: string, ctx: Context)
    ensures IsPast(Trimmed(DataText(o, key)), ctx) <==> PastField(o, key, ctx)
  {
    hide IsPast, Past, HasTrimmed, DataText, Trimmed, LacksText;
    var text := Trimmed(DataText(o, key));
    PastIff(text, ctx);
    forall t ensures text == Some(t) <==> HasTrimmed(o, key, t) {
      TrimmedIff(o, key, t);
    }
    if text == None {
      NothingPast(ctx);
    }
  }

  lemma NothingPast(ctx: Context)
    ensures !Past(None, ctx)
  {
  }

  lemma CodeIff(code: Option<string>, text: Option<string>, ctx: Context)
    ensures code == Code(text, ctx) <==> CodeIs(code, text, ctx)
  {
  }

  lemma LiveIff(o: Object)
    ensures IsLive(o) <==> Live(o)
  {
    if DataText(o, "runbook_status").Some? { assert HasText(o, "runbook_status", DataText(o, "runbook_status").value); }
    if DataText(o, "decision_status").Some? { assert HasText(o, "decision_status", DataText(o, "decision_status").value); }
    if DataText(o, "project_status").Some? { assert HasText(o, "project_status", DataText(o, "project_status").value); }
  }

  ghost predicate Tells(item: Item, o: Object, ctx: Context) {
    item.target == ObjectTarget(o) && Gives(o, item.reason, item.code, item.observedAt, ctx)
  }

  lemma AccessIff(o: Object, ctx: Context, item: Item)
    ensures Raised(item) in AccessSignals(o) <==> Tells(item, o, ctx) && item.reason == AccessOwnerMissing
  {
  }

  lemma StateIff(o: Object, ctx: Context, item: Item)
    requires Qualifies(o)
    ensures Raised(item) in PlacementSignals(o) <==> Tells(item, o, ctx) && item.reason == PlacementMissing
    ensures Raised(item) in ReleaseSignals(o) <==> Tells(item, o, ctx) && item.reason == ReleaseUpdateAvailable
  {
    hide Live;
  }

  lemma LifecycleIff(o: Object, ctx: Context, item: Item)
    requires Qualifies(o)
    ensures Raised(item) in LifecycleSignals(o) <==>
            Tells(item, o, ctx)
            && item.reason in {LifecycleHealthDown, LifecycleHealthDegraded, LifecycleHealthUnknown, LifecycleMaintenance}
  {
    hide Live;
  }

  lemma ObservationIff(o: Object, ctx: Context, item: Item)
    requires Watched(o)
    ensures Raised(item) in ObservationSignals(o, o.monitoring.value, ctx) <==>
            Tells(item, o, ctx)
            && item.reason in {MonitoringNeverObserved, MonitoringObservationStale, MonitoringObservedDown, MonitoringCheckError}
  {
    hide Live, Code, CodeIs;
    CodeIff(item.code, o.monitoring.value.observedState, ctx);
    CodeIff(item.code, o.monitoring.value.errorCode, ctx);
  }

  lemma MonitoringIff(o: Object, ctx: Context, item: Item)
    requires Live(o) && (o.recordState != "valid" ==> Misconfigured(o))
    ensures Raised(item) in MonitoringSignals(o, ctx) <==>
            Tells(item, o, ctx)
            && item.reason in {MonitoringConfigInvalid, EndpointTargetUnresolved, MonitoringNeverObserved,
                               MonitoringObservationStale, MonitoringObservedDown, MonitoringCheckError}
  {
    hide Live, CodeIs, ObservationSignals;
    if Watched(o) {
      ObservationIff(o, ctx, item);
    }
  }

  lemma ProvenanceIff(o: Object, ctx: Context, item: Item)
    requires Qualifies(o)
    ensures Raised(item) in ProvenanceSignals(o, ctx) <==>
            Tells(item, o, ctx) && item.reason in {ProvenanceStale, ProvenanceUnverified}
  {
    hide Live, IsPast, Past;
    PastIff(o.staleAfter, ctx);
  }

  lemma RunbookCodeIff(code: Option<string>, o: Object, ctx: Context)
    ensures (var status := DataText(o, "runbook_status");
             code == if status.Some? && IsRunbookStatus(status.value) then Code(status, ctx) else None) <==> RunbookCodeIs(code, o, ctx)
  {
    hide IsRunbookStatus;
    forall s ensures DataText(o, "runbook_status") == Some(s) <==> HasText(o, "runbook_status", s) {
      TextIff(o, "runbook_status", s);
    }
  }

  lemma TextsOfRunbook(o: Object, s: string)
    ensures DataText(o, "runbook_status") == Some(s) <==> HasText(o, "runbook_status", s)
    ensures DataText(o, "criticality") == Some(s) <==> HasText(o, "criticality", s)
    ensures DataText(o, "decision_status") == Some(s) <==> HasText(o, "decision_status", s)
    ensures DataText(o, "project_status") == Some(s) <==> HasText(o, "project_status", s)
  {
  }

  lemma RunbookIff(o: Object, ctx: Context, item: Item)
    requires RunbookCounts(o)
    ensures Raised(item) in RunbookSignals(o, ctx) <==>
            Tells(item, o, ctx) && item.reason in {RunbookReviewOverdue, RunbookUnverified, RunbookDeprecatedUnresolved}
  {
    hide Live, IsPast, PastField, Code, DataText, Trimmed, HasText, HasTrimmed, LacksText, RunbookCodeIs, IsRunbookStatus, ObjectTarget;
    PastFieldIff(o, "review_after", ctx);
    RunbookCodeIff(item.code, o, ctx);
    TextsOfRunbook(o, "approved");
    TextsOfRunbook(o, "active");
    TextsOfRunbook(o, "deprecated");
    TrimmedIff(o, "last_verified_at", "");
    TrimmedIff(o, "deprecation_rationale", "");
    TrimmedIff(o, "successor_recommendation", "");
    if item.observedAt.Some? {
      TrimmedIff(o, "review_after", item.observedAt.value);
    }
    if IsPast(Trimmed(DataText(o, "review_after")), ctx) {
      PastIsSome(Trimmed(DataText(o, "review_after")), ctx);
    }
  }

  lemma PastIsSome(at: Option<string>, ctx: Context)
    requires IsPast(at, ctx)
    ensures at.Some?
  {
  }

  lemma ServiceIff(o: Object, ctx: Context, item: Item)
    requires Qualifies(o) && o.kind == "service"
    ensures Raised(item) in RunbookSignals(o, ctx) <==> Tells(item, o, ctx) && item.reason == CriticalServiceRunbookMissing
  {
    hide Live, DataText, HasText, ObjectTarget;
    TextsOfRunbook(o, "critical");
  }

  lemma StatusCodeIff(code: Option<string>, o: Object, key: string, ctx: Context)
    ensures code == Code(DataText(o, key), ctx) <==> StatusCodeIs(code, o, key, ctx)
  {
    hide Code, CodeIs;
    var status := DataText(o, key);
    CodeIff(code, status, ctx);
    assert FieldIs(status, o, key);
    forall other | FieldIs(other, o, key) ensures other == status {
      if other.Some? {
        TextIff(o, key, other.value);
      } else if status.Some? {
        TextIff(o, key, status.value);
      }
    }
  }

  lemma KnowledgeIff(o: Object, ctx: Context, item: Item)
    requires KnowledgeCounts(o)
    ensures Raised(item) in KnowledgeSignals(o, ctx) <==>
            Tells(item, o, ctx) && item.reason in {KnowledgeReviewOverdue, KnowledgeReviewUnscheduled}
  {
    hide Live, IsPast, PastField, Code, DataText, Trimmed, HasText, HasTrimmed, LacksText, StatusCodeIs, ObjectTarget;
    PastFieldIff(o, "review_after", ctx);
    StatusCodeIff(item.code, o, StatusKey(o), ctx);
    TextsOfRunbook(o, "accepted");
    TextsOfRunbook(o, "active");
    TrimmedIff(o, "review_after", "");
    if item.observedAt.Some? {
      TrimmedIff(o, "review_after", item.observedAt.value);
    }
    if IsPast(Trimmed(DataText(o, "review_after")), ctx) {
      PastIsSome(Trimmed(DataText(o, "review_after")), ctx);
    }
  }

  /** The parts that can be raised for a counted object. */
  lemma ValidRecordIff(o: Object, ctx: Context, item: Item)
    requires Qualifies(o)
    ensures Raised(item) in ValidRecordSignals(o, ctx) <==>
            Tells(item, o, ctx) && item.reason != AccessOwnerMissing
  {
    hide PlacementSignals, LifecycleSignals, MonitoringSignals, ReleaseSignals, ProvenanceSignals, RunbookSignals,
         KnowledgeSignals, Live, Past, PastField, CodeIs, HasText, HasTrimmed, LacksText, RunbookCodeIs, StatusCodeIs, ObjectTarget;
    StateIff(o, ctx, item);
    LifecycleIff(o, ctx, item);
    MonitoringIff(o, ctx, item);
    ProvenanceIff(o, ctx, item);
    RunbookPartIff(o, ctx, item);
    KnowledgePartIff(o, ctx, item);
  }

  lemma RunbookPartIff(o: Object, ctx: Context, item: Item)
    requires Qualifies(o)
    ensures Raised(item) in RunbookSignals(o, ctx) <==>
            Tells(item, o, ctx) && item.reason in {CriticalServiceRunbookMissing, RunbookReviewOverdue, RunbookUnverified, RunbookDeprecatedUnresolved}
  {
    hide Live, Past, PastField, HasText, HasTrimmed, LacksText, RunbookCodeIs, ObjectTarget, CodeIs;
    if o.kind == "service" {
      hide RunbookSignals;
      ServiceIff(o, ctx, item);
    } else if o.kind == "runbook" {
      hide RunbookSignals;
      RunbookIff(o, ctx, item);
    }
  }

  lemma KnowledgePartIff(o: Object, ctx: Context, item: Item)
    requires Qualifies(o)
    ensures Raised(item) in KnowledgeSignals(o, ctx) <==>
            Tells(item, o, ctx) && item.reason in {KnowledgeReviewOverdue, KnowledgeReviewUnscheduled}
  {
    hide Live, Past, PastField, HasText, HasTrimmed, LacksText, StatusCodeIs, ObjectTarget, CodeIs, InUse;
    if o.kind == "decision" || o.kind == "project" {
      hide KnowledgeSignals;
      KnowledgeIff(o, ctx, item);
    }
  }

  /** An object raises an item exactly when it gives the item's reason, code and time. */
  lemma RaisedIff(o: Object, ctx: Context, item: Item)
    ensures Raised(item) in ObjectSignals(o, ctx) <==> Tells(item, o, ctx)
  {
    hide AccessSignals, MonitoringSignals, ValidRecordSignals, IsLive, Live, Past, PastField, CodeIs, HasText, HasTrimmed,
         LacksText, RunbookCodeIs, StatusCodeIs, ObjectTarget;
    LiveIff(o);
    AccessIff(o, ctx, item);
    if Qualifies(o) {
      ValidRecordIff(o, ctx, item);
    } else if Live(o) && Misconfigured(o) {
      MonitoringIff(o, ctx, item);
      OnlyMisconfigured(o, ctx, item);
    }
  }

  lemma OnlyMisconfigured(o: Object, ctx: Context, item: Item)
    requires !Qualifies(o)
    ensures Tells(item, o, ctx) ==> item.reason in {AccessOwnerMissing, RecordCorrupt, MonitoringConfigInvalid}
  {
    hide Live;
  }

  /** What an object is judged for. */
  ghost predicate IsJudged(c: Category, o: Object) {
    match c
    case RecordIntegrity => true
    case Access => o.owner.Some?
    case RelationshipIntegrity => Qualifies(o)
    case Placement => Qualifies(o) && o.placementState.Some?
    case Lifecycle => Qualifies(o) && IsAsset(o.kind)
    case Monitoring => Watched(o) || (Live(o) && Misconfigured(o))
    case Endpoint => Watched(o) || (Live(o) && Misconfigured(o))
    case Release => HasRelease(o)
    case Provenance => Qualifies(o)
    case Runbook => RunbookCounts(o) || (Qualifies(o) && o.kind == "service" && HasText(o, "criticality", "critical"))
    case Knowledge => KnowledgeCounts(o)
    case SourceCoverage => false
    case TaskDeadline => false
  }

  lemma StateJudgedIff(o: Object, c: Category)
    ensures Judged(c) in PlacementSignals(o) <==> c == Placement && o.placementState.Some?
    ensures Judged(c) in LifecycleSignals(o) <==> c == Lifecycle && IsAsset(o.kind)
    ensures Judged(c) in ReleaseSignals(o) <==> c == Release && o.kind == "service" && o.release.Some? && o.release.value.enabled
  {
    hide ObjectTarget;
  }

  lemma MonitoringJudgedIff(o: Object, ctx: Context, c: Category)
    ensures Judged(c) in MonitoringSignals(o, ctx) <==>
            (c == Monitoring || c == Endpoint) && o.monitoring.Some? && (o.monitoring.value.enabled || Misconfigured(o))
  {
    hide ObjectTarget, ObservationSignals;
    ObservationsJudgeNothing(o, ctx, c);
  }

  lemma ProvenanceJudgedIff(o: Object, ctx: Context, c: Category)
    ensures Judged(c) in ProvenanceSignals(o, ctx) <==> c == Provenance
  {
    hide ObjectTarget, IsPast;
  }

  lemma RunbookJudgedIff(o: Object, ctx: Context, c: Category)
    ensures Judged(c) in RunbookSignals(o, ctx) <==>
            c == Runbook && (o.kind == "runbook" || (o.kind == "service" && HasText(o, "criticality", "critical")))
  {
    hide ObjectTarget, IsPast, Code, DataText, HasText, Trimmed, IsRunbookStatus;
    TextsOfRunbook(o, "critical");
  }

  lemma KnowledgeJudgedIff(o: Object, ctx: Context, c: Category)
    ensures Judged(c) in KnowledgeSignals(o, ctx) <==> c == Knowledge && (o.kind == "decision" || o.kind == "project")
  {
    hide ObjectTarget, IsPast, Code, DataText, Trimmed;
  }

  lemma ValidJudgedIff(o: Object, ctx: Context, c: Category)
    requires Qualifies(o)
    ensures Judged(c) in ValidRecordSignals(o, ctx) <==>
            IsJudged(c, o) && c != RecordIntegrity && c != Access
  {
    hide Live, HasText, PlacementSignals, LifecycleSignals, MonitoringSignals, ReleaseSignals, ProvenanceSignals, RunbookSignals,
         KnowledgeSignals;
    StateJudgedIff(o, c);
    MonitoringJudgedIff(o, ctx, c);
    ProvenanceJudgedIff(o, ctx, c);
    RunbookJudgedIff(o, ctx, c);
    KnowledgeJudgedIff(o, ctx, c);
  }

  lemma ObservationsJudgeNothing(o: Object, ctx: Context, c: Category)
    ensures o.monitoring.Some? ==> Judged(c) !in ObservationSignals(o, o.monitoring.value, ctx)
  {
    hide Code;
  }

  lemma CorruptJudgedIff(o: Object, ctx: Context, c: Category)
    ensures Judged(c) in CorruptRecordSignals(o, ctx) <==> (c == Monitoring || c == Endpoint) && Live(o) && Misconfigured(o)
  {
    hide Live, IsLive, MonitoringSignals, ObjectTarget;
    LiveIff(o);
    MonitoringJudgedIff(o, ctx, c);
  }

  lemma AccessJudgedIff(o: Object, c: Category)
    ensures Judged(c) in AccessSignals(o) <==> c == Access && o.owner.Some?
  {
    hide ObjectTarget;
  }

  /** An object is judged for a category exactly when it can give one of its reasons. */
  lemma JudgedIff(o: Object, ctx: Context, c: Category)
    ensures Judged(c) in ObjectSignals(o, ctx) <==> IsJudged(c, o)
  {
    hide Live, IsLive, AccessSignals, CorruptRecordSignals, ValidRecordSignals, HasText;
    LiveIff(o);
    AccessJudgedIff(o, c);
    CorruptJudgedIff(o, ctx, c);
    if Qualifies(o) {
      ValidJudgedIff(o, ctx, c);
    }
  }

  // The other inputs.

  /** The object of a row or diagnostic counts. */
  ghost predicate CountsIn(id: string, labels: Labels) {
    id in labels && Qualifies(labels[id])
  }

  lemma CountedIff(id: string, labels: Labels)
    ensures IsCounted(id, labels) <==> CountsIn(id, labels)
  {
    hide Live, IsLive;
    if id in labels {
      LiveIff(labels[id]);
    }
  }

  /** A task of a counted project that is neither archived nor done and whose due date has passed. */
  ghost predicate Overdue(t: Task, labels: Labels, ctx: Context) {
    && CountsIn(t.projectId, labels) && labels[t.projectId].kind == "project" && !t.archived
    && t.effectiveStatus != Some("done")
    && exists due, at :: due != "" && t.dueAt == Some(due) && ctx.parse(due) == Some(at) && at < ctx.now
  }

  lemma TaskIff(t: Task, labels: Labels, ctx: Context, item: Item)
    ensures Raised(item) in TaskSignals(t, labels, ctx) <==>
            Overdue(t, labels, ctx) && item == Item(TaskDeadlineOverdue, TaskTarget(t, labels[t.projectId]), None, None)
  {
    hide Qualifies, IsCounted;
    CountedIff(t.projectId, labels);
  }

  /** The reason of a diagnostic about a counted object, the first that applies. */
  ghost predicate Explains(reason: Reason, d: Diagnostic, kind: string) {
    var dangling, placement := d.code == "dangling_typed_reference", d.relationType == Some("hosts") || d.code == "multiple_placement_parents";
    var primary, knowledge := d.code == "multiple_primary_relationships", kind == "runbook" || kind == "decision" || kind == "project";
    match reason
    case RelationshipTargetUnresolved => dangling
    case PlacementRelationshipInvalid => !dangling && placement
    case RelationshipPrimaryAmbiguous => !dangling && !placement && primary
    case KnowledgeRelationshipInvalid => !dangling && !placement && !primary && knowledge
    case RelationshipDomainInvalid => !dangling && !placement && !primary && !knowledge
    case _ => false
  }

  lemma DiagnosticIff(d: Diagnostic, labels: Labels, item: Item)
    ensures Raised(item) in DiagnosticSignals(d, labels) <==>
            CountsIn(d.objectId, labels) && Explains(item.reason, d, labels[d.objectId].kind)
            && item == Item(item.reason, ObjectTarget(labels[d.objectId]), Some(d.code), None)
  {
    hide Qualifies, IsCounted, ObjectTarget;
    CountedIff(d.objectId, labels);
  }

  lemma CoverageIff(row: CoverageRow, labels: Labels, item: Item)
    ensures Raised(item) in CoverageSignals(row, labels) <==>
            CountsIn(row.objectId, labels)
            && ((item.reason == CoverageImportDrift && row.state == "source_changed_since_import")
                || (item.reason == CoverageMappingAmbiguous && (row.state == "ambiguous_mapping" || row.state == "duplicate_mapping")))
            && item == Item(item.reason, ObjectTarget(labels[row.objectId]), Some(row.state), Some(row.observedAt))
  {
    hide Qualifies, IsCounted, ObjectTarget;
    CountedIff(row.objectId, labels);
  }

  lemma OthersJudgedIff(t: Task, row: CoverageRow, d: Diagnostic, labels: Labels, ctx: Context, c: Category)
    ensures Judged(c) in TaskSignals(t, labels, ctx) <==>
            c == TaskDeadline && CountsIn(t.projectId, labels) && labels[t.projectId].kind == "project" && !t.archived
    ensures Judged(c) in CoverageSignals(row, labels) <==> c == SourceCoverage && CountsIn(row.objectId, labels)
    ensures Judged(c) !in DiagnosticSignals(d, labels)
  {
    hide Qualifies, IsCounted, ObjectTarget, TaskTarget;
    CountedIff(t.projectId, labels);
    CountedIff(row.objectId, labels);
  }

  // The vocabulary.

  /** What is down or corrupt is critical, what is merely unknown or declared is information, and the
      state tells stale and unknown signals from current ones. */
  lemma SeverityIff(r: Reason)
    ensures SpecOf(r).severity == Critical <==> r in {RecordCorrupt, MonitoringObservedDown, LifecycleHealthDown}
    ensures SpecOf(r).severity == Info <==>
            r in {MonitoringNeverObserved, LifecycleHealthUnknown, LifecycleMaintenance, ProvenanceUnverified,
                  RunbookDeprecatedUnresolved, KnowledgeReviewUnscheduled, CoverageNotCollected}
    ensures SpecOf(r).state == Stale <==>
            r in {MonitoringObservationStale, ProvenanceStale, RunbookReviewOverdue, KnowledgeReviewOverdue, CoverageImportDrift}
    ensures SpecOf(r).state == Unknown <==>
            r in {MonitoringConfigInvalid, MonitoringNeverObserved, LifecycleHealthUnknown, EndpointTargetUnresolved,
                  PlacementMissing, RelationshipTargetUnresolved, ProvenanceUnverified, RunbookUnverified,
                  CriticalServiceRunbookMissing, KnowledgeReviewUnscheduled, CoverageNotCollected}
    ensures SpecOf(r).state != NotApplicable
  {
  }

  /** The registry lists the reasons category by category. */
  lemma CategoriesAreRuns(r: Reason, s: Reason)
    requires Rank(r) <= Rank(s)
    ensures CategoryRank(SpecOf(r).category) <= CategoryRank(SpecOf(s).category)
  {
    CategoryBounds(r);
    CategoryBounds(s);
  }

  /** The ranks of a category. */
  lemma CategoryBounds(r: Reason)
    ensures CategoryRank(SpecOf(r).category) ==
            if Rank(r) <= 0 then 0 else if Rank(r) <= 1 then 1 else if Rank(r) <= 6 then 2 else if Rank(r) <= 7 then 3
            else if Rank(r) <= 11 then 4 else if Rank(r) <= 12 then 5 else if Rank(r) <= 14 then 6 else if Rank(r) <= 18 then 7
            else if Rank(r) <= 20 then 8 else if Rank(r) <= 24 then 9 else if Rank(r) <= 26 then 10 else if Rank(r) <= 29 then 11
            else 12
  {
  }

  // Targets.

  /** The target of an object names it by kind and id, and leads to its page. */
  lemma ObjectTargetTells(o: Object, target: Target)
    requires target == ObjectTarget(o)
    ensures target.scope == ObjectScope && target.ref == o.kind + ":" + o.objectId
    ensures target.objectId == Some(o.objectId) && target.kind == Some(o.kind) && target.caption == Some(o.caption)
    ensures target.detailPath == Some("/objects/" + o.objectId) && target.recordId == None && target.projectLabel == None
  {
  }

  /** The target of a task is its record in the workspace of the project. */
  lemma TaskTargetTells(t: Task, project: Object, target: Target)
    requires target == TaskTarget(t, project)
    ensures target.scope == RecordScope && target.ref == "project_record:" + t.recordId
    ensures target.objectId == Some(project.objectId) && target.kind == Some(project.kind) && target.caption == Some(t.caption)
    ensures target.detailPath == Some("/projects/" + project.objectId + "/workspace/record/" + t.recordId)
    ensures target.recordId == Some(t.recordId) && target.projectLabel == Some(project.caption)
  {
  }
}
