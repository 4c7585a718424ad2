/** Accepted snapshots: their canonical digest payload, duplicate owners and summary counts. */
module SourceInventory {
  import opened Wrappers
  import opened Counts
  import opened Ordering
  import opened SourceCoverage

  const MAX_SNAPSHOT_ENTRIES := 5000
  const MAX_MAPPINGS_PER_ENTRY := 100
  const MAX_SNAPSHOT_MAPPINGS := 10000

  /** The text rules of a snapshot: regular expressions, timestamp parsing, the secret scan, and the
      hashes over the sorted fingerprints of one source and over the whole payload. */
  datatype TextRules = TextRules(
    collector: string -> bool,
    sourceUri: string -> bool,
    entryId: Option<string> -> bool,
    fingerprint: string -> bool,
    objectId: string -> bool,
    timestamp: string -> bool,
    clean: Snapshot -> bool,
    aggregate: seq<string> -> string,
    digest: Payload -> string)

  datatype SnapshotError =
    | MalformedText | TooManyEntries | TooManyMappings | DuplicateEntryKey | DuplicateMappingObject
    | SourceFingerprintMismatch | SecretFound | DigestMismatch

  predicate MappingText(m: Mapping, rules: TextRules) {
    && rules.objectId(m.objectId) && rules.fingerprint(m.importedFingerprint)
    && (m.importedAt.Some? ==> rules.timestamp(m.importedAt.value))
    && (m.verifiedAt.Some? ==> rules.timestamp(m.verifiedAt.value))
  }

  predicate EntryText(e: Entry, rules: TextRules) {
    && rules.sourceUri(e.sourceUri) && rules.entryId(e.entryId) && rules.timestamp(e.observedAt)
    && rules.fingerprint(e.entryFingerprint) && rules.fingerprint(e.sourceFingerprint)
  }

  ghost predicate DistinctObjects(mappings: seq<Mapping>) {
    forall i, j | 0 <= i < j < |mappings| :: mappings[i].objectId != mappings[j].objectId
  }

  ghost predicate EntryAccepted(e: Entry, rules: TextRules) {
    && EntryText(e, rules)
    && |e.mappings| <= MAX_MAPPINGS_PER_ENTRY
    && (forall m | m in e.mappings :: MappingText(m, rules))
    && DistinctObjects(e.mappings)
  }

  function MappingCount(entries: seq<Entry>): nat {
    if entries == [] then 0 else MappingCount(entries[..|entries| - 1]) + |entries[|entries| - 1].mappings|
  }

  /** Fingerprints of the present entries of one source, in the order of the snapshot. */
  function Fingerprints(entries: seq<Entry>, uri: string): seq<string> {
    if entries == [] then []
    else
      var front, last := Fingerprints(entries[..|entries| - 1], uri), entries[|entries| - 1];
      if last.sourceUri == uri && last.presence == Present then front + [last.entryFingerprint] else front
  }

  function Itself(): string -> Key {
    (s: string) => [s]
  }

  function SourceFingerprint(fingerprints: seq<string>, rules: TextRules): string {
    rules.aggregate(SortBy(Itself(), fingerprints))
  }

  /** What `validate_snapshot` accepts. */
  ghost predicate Accepts(s: Snapshot, rules: TextRules) {
    && rules.collector(s.collector) && rules.timestamp(s.collectedAt) && rules.clean(s)
    && |s.entries| <= MAX_SNAPSHOT_ENTRIES && MappingCount(s.entries) <= MAX_SNAPSHOT_MAPPINGS
    && (forall e | e in s.entries :: EntryAccepted(e, rules))
    && DistinctKeys(EntryKey(), s.entries)
    && (forall e | e in s.entries :: e.sourceFingerprint == SourceFingerprint(Fingerprints(s.entries, e.sourceUri), rules))
    && (s.digest == "" || s.digest == rules.digest(PayloadOf(s)))
  }

  method ValidateEntry(e: Entry, rules: TextRules) returns (r: Result<(), SnapshotError>)
    ensures r.Ok? <==> EntryAccepted(e, rules)
  {
    if !EntryText(e, rules) {
      return Err(MalformedText);
    }
    if |e.mappings| > MAX_MAPPINGS_PER_ENTRY {
      return Err(TooManyMappings);
    }
    var ids: set<string> := {};
    for i := 0 to |e.mappings|
      invariant forall j | 0 <= j < i :: MappingText(e.mappings[j], rules)
      invariant forall id :: id in ids <==> exists j :: 0 <= j < i && e.mappings[j].objectId == id
      invariant DistinctObjects(e.mappings[..i])
    {
      if !MappingText(e.mappings[i], rules) {
        return Err(MalformedText);
      }
      if e.mappings[i].objectId in ids {
        return Err(DuplicateMappingObject);
      }
      ids := ids + {e.mappings[i].objectId};
    }
    assert e.mappings[..|e.mappings|] == e.mappings;
    return Ok(());
  }

  function Known(m: map<string, seq<string>>, uri: string): seq<string> {
    if uri in m then m[uri] else []
  }

  /** `entries_by_source`, reduced to what the check reads from it. */
  method CollectFingerprints(entries: seq<Entry>) returns (m: map<string, seq<string>>)
    ensures forall e | e in entries :: e.sourceUri in m
    ensures forall uri | uri in m :: m[uri] == Fingerprints(entries, uri)
  {
    m := map[];
    for i := 0 to |entries|
      invariant forall j | 0 <= j < i :: entries[j].sourceUri in m
      invariant forall uri :: Known(m, uri) == Fingerprints(entries[..i], uri)
    {
      var e := entries[i];
      assert entries[..i + 1][..i] == entries[..i];
      var known := Known(m, e.sourceUri);
      m := m[e.sourceUri := if e.presence == Present then known + [e.entryFingerprint] else known];
    }
    assert entries[..|entries|] == entries;
  }

  /** Every entry carries the fingerprint of its source. */
  method CheckFingerprints(entries: seq<Entry>, rules: TextRules) returns (ok: bool)
    ensures ok <==> forall e | e in entries :: e.sourceFingerprint == SourceFingerprint(Fingerprints(entries, e.sourceUri), rules)
  {
    hide Fingerprints, SourceFingerprint;
    var m := CollectFingerprints(entries);
    for i := 0 to |entries|
      invariant forall j | 0 <= j < i ::
                  entries[j].sourceFingerprint == SourceFingerprint(Fingerprints(entries, entries[j].sourceUri), rules)
    {
      var e := entries[i];
      assert e in entries;
      if e.sourceFingerprint != SourceFingerprint(m[e.sourceUri], rules) {
        return false;
      }
    }
    return true;
  }

  /** `validate_snapshot`. */
  method ValidateSnapshot(s: Snapshot, rules: TextRules) returns (r: Result<(), SnapshotError>)
    ensures r.Ok? <==> Accepts(s, rules)
  {
    hide EntryAccepted, Fingerprints, SourceFingerprint, Entry.Key, PayloadOf;
    if !rules.collector(s.collector) {
      return Err(MalformedText);
    }
    if |s.entries| > MAX_SNAPSHOT_ENTRIES {
      return Err(TooManyEntries);
    }
    if !rules.timestamp(s.collectedAt) {
      return Err(MalformedText);
    }
    var seen: set<Key> := {};
    var count := 0;
    for i := 0 to |s.entries|
      invariant forall j | 0 <= j < i :: EntryAccepted(s.entries[j], rules)
      invariant forall k :: k in seen <==> exists j :: 0 <= j < i && s.entries[j].Key() == k
      invariant forall j, k | 0 <= j < k < i :: s.entries[j].Key() != s.entries[k].Key()
      invariant count == MappingCount(s.entries[..i])
    {
      var e := s.entries[i];
      assert s.entries[..i + 1][..i] == s.entries[..i];
      var checked := ValidateEntry(e, rules);
      if checked.Err? {
        assert e in s.entries;
        return checked;
      }
      if e.Key() in seen {
        ghost var j :| 0 <= j < i && s.entries[j].Key() == e.Key();
        assert EntryKey()(s.entries[j]) == EntryKey()(s.entries[i]);
        return Err(DuplicateEntryKey);
      }
      seen := seen + {e.Key()};
      count := count + |e.mappings|;
    }
    assert s.entries[..|s.entries|] == s.entries;
    if count > MAX_SNAPSHOT_MAPPINGS {
      return Err(TooManyMappings);
    }
    var matching := CheckFingerprints(s.entries, rules);
    if !matching {
      return Err(SourceFingerprintMismatch);
    }
    if !rules.clean(s) {
      return Err(SecretFound);
    }
    if s.digest != "" && s.digest != rules.digest(PayloadOf(s)) {
      return Err(DigestMismatch);
    }
    return Ok(());
  }

  // The canonical digest payload.

  datatype PayloadMapping = PayloadMapping(objectId: string, role: Role, importedFingerprint: string)

  datatype PayloadEntry = PayloadEntry(sourceUri: string, entryId: Option<string>, classification: Classification,
                                       intent: Intent, decisionReason: string, entryFingerprint: string,
                                       sourceFingerprint: string, presence: Presence, mappings: seq<PayloadMapping>)

  datatype Payload = Payload(collector: string, entries: seq<PayloadEntry>)

  function Bare(): Mapping -> PayloadMapping {
    (m: Mapping) => PayloadMapping(m.objectId, m.role, m.importedFingerprint)
  }

  function BareKey(): PayloadMapping -> Key {
    (m: PayloadMapping) => [m.objectId, RoleName(m.role)]
  }

  function PayloadOfEntry(e: Entry): PayloadEntry {
    PayloadEntry(e.sourceUri, e.entryId, e.classification, e.intent, e.decisionReason, e.entryFingerprint,
                 e.sourceFingerprint, e.presence, SortBy(BareKey(), Map(Bare(), e.mappings)))
  }

  function PayloadKey(): PayloadEntry -> Key {
    (p: PayloadEntry) => [p.sourceUri, if p.entryId.Some? then p.entryId.value else ""]
  }

  /** The document `snapshot_digest` hashes. */
  function PayloadOf(s: Snapshot): Payload {
    Payload(s.collector, SortBy(PayloadKey(), Map(e => PayloadOfEntry(e), s.entries)))
  }

  /** An entry without its audit timestamps and without an order of its mappings. */
  datatype InventoryEntry = InventoryEntry(sourceUri: string, entryId: Option<string>, classification: Classification,
                                           intent: Intent, decisionReason: string, entryFingerprint: string,
                                           sourceFingerprint: string, presence: Presence, mappings: multiset<PayloadMapping>)

  function InventoryOfEntry(e: Entry): InventoryEntry {
    InventoryEntry(e.sourceUri, e.entryId, e.classification, e.intent, e.decisionReason, e.entryFingerprint,
                   e.sourceFingerprint, e.presence, multiset(Map(Bare(), e.mappings)))
  }

  /** The inventory of a snapshot: which entries it holds, in no order. */
  function Inventory(s: Snapshot): multiset<InventoryEntry> {
    multiset(Map(e => InventoryOfEntry(e), s.entries))
  }

  function Forget(p: PayloadEntry): InventoryEntry {
    InventoryEntry(p.sourceUri, p.entryId, p.classification, p.intent, p.decisionReason, p.entryFingerprint,
                   p.sourceFingerprint, p.presence, multiset(p.mappings))
  }

  ghost predicate Lists(s: seq<PayloadMapping>, m: multiset<PayloadMapping>) {
    multiset(s) == m
  }

  /** Some order of the mappings of an inventory entry. */
  ghost function AnyOrder(m: multiset<PayloadMapping>): (s: seq<PayloadMapping>)
    ensures Lists(s, m)
  {
    Listable(m);
    var s :| Lists(s, m);
    s
  }

  ghost function Arrange(v: InventoryEntry): PayloadEntry {
    PayloadEntry(v.sourceUri, v.entryId, v.classification, v.intent, v.decisionReason, v.entryFingerprint,
                 v.sourceFingerprint, v.presence, SortBy(BareKey(), AnyOrder(v.mappings)))
  }

  lemma ListsOneMore(s: seq<PayloadMapping>, m: multiset<PayloadMapping>, x: PayloadMapping)
    requires x in m && Lists(s, m - multiset{x})
    ensures Lists(s + [x], m)
  {
    assert multiset(s + [x]) == multiset(s) + multiset{x};
  }

  lemma {:induction false} Listable(m: multiset<PayloadMapping>)
    ensures exists s :: Lists(s, m)
    decreases |m|
  {
    if m == multiset{} {
      assert Lists([], m);
    } else {
      var x :| x in m;
      assert |m - multiset{x}| == |m| - 1;
      Listable(m - multiset{x});
      var s :| Lists(s, m - multiset{x});
      ListsOneMore(s, m, x);
    }
  }

  lemma ForgetRestores(e: Entry)
    ensures Forget(PayloadOfEntry(e)) == InventoryOfEntry(e)
  {
    hide SortBy;
  }

  lemma ArrangeRestores(e: Entry)
    requires DistinctObjects(e.mappings)
    ensures Arrange(InventoryOfEntry(e)) == PayloadOfEntry(e)
  {
    hide SortBy, KeyLe;
    var v := InventoryOfEntry(e);
    var bare := Map(Bare(), e.mappings);
    forall i, j | 0 <= i < j < |bare| ensures BareKey()(bare[i]) != BareKey()(bare[j]) {
      assert BareKey()(bare[i])[0] == e.mappings[i].objectId && BareKey()(bare[j])[0] == e.mappings[j].objectId;
    }
    SortByForgetsOrder(BareKey(), bare, AnyOrder(v.mappings));
  }

  /** Equal payloads mean equal inventories: nothing but audit timestamps and order is left out. */
  lemma PayloadDeterminesInventory(s: Snapshot, t: Snapshot)
    requires PayloadOf(s) == PayloadOf(t)
    ensures s.collector == t.collector && Inventory(s) == Inventory(t)
  {
    hide SortBy, PayloadOfEntry, InventoryOfEntry, Forget;
    var a, b := Map(e => PayloadOfEntry(e), s.entries), Map(e => PayloadOfEntry(e), t.entries);
    assert multiset(a) == multiset(PayloadOf(s).entries) == multiset(b);
    MapKeepsMultisets(p => Forget(p), a, b);
    ForgetAll(s);
    ForgetAll(t);
  }

  lemma ForgetAll(s: Snapshot)
    ensures multiset(Map(p => Forget(p), Map(e => PayloadOfEntry(e), s.entries))) == Inventory(s)
  {
    hide PayloadOfEntry, InventoryOfEntry, Forget;
    forall i | 0 <= i < |s.entries| ensures Forget(PayloadOfEntry(s.entries[i])) == InventoryOfEntry(s.entries[i]) {
      ForgetRestores(s.entries[i]);
    }
    assert Map(p => Forget(p), Map(e => PayloadOfEntry(e), s.entries)) == Map(e => InventoryOfEntry(e), s.entries);
  }

  lemma ArrangeAll(s: Snapshot)
    requires forall e | e in s.entries :: DistinctObjects(e.mappings)
    ensures Map(v => Arrange(v), Map(e => InventoryOfEntry(e), s.entries)) == Map(e => PayloadOfEntry(e), s.entries)
  {
    hide PayloadOfEntry, InventoryOfEntry, Arrange, DistinctObjects;
    forall i | 0 <= i < |s.entries| ensures Arrange(InventoryOfEntry(s.entries[i])) == PayloadOfEntry(s.entries[i]) {
      ArrangeRestores(s.entries[i]);
    }
  }

  lemma AcceptedObjectsDistinct(s: Snapshot, rules: TextRules)
    requires Accepts(s, rules)
    ensures forall e | e in s.entries :: DistinctObjects(e.mappings)
  {
  }

  lemma PayloadKeysDistinct(s: Snapshot)
    requires DistinctKeys(EntryKey(), s.entries)
    ensures DistinctKeys(PayloadKey(), Map(e => PayloadOfEntry(e), s.entries))
  {
    var a := Map(e => PayloadOfEntry(e), s.entries);
    forall i, j | 0 <= i < j < |a| ensures PayloadKey()(a[i]) != PayloadKey()(a[j]) {
      assert EntryKey()(s.entries[i]) != EntryKey()(s.entries[j]);
    }
  }

  /** For accepted snapshots the payload is a function of the inventory: no order of entries or
      mappings and no audit timestamp changes it, and every other change does. */
  lemma PayloadIffInventory(s: Snapshot, t: Snapshot, rules: TextRules)
    requires Accepts(s, rules) && Accepts(t, rules)
    ensures PayloadOf(s) == PayloadOf(t) <==> s.collector == t.collector && Inventory(s) == Inventory(t)
  {
    hide SortBy, PayloadOfEntry, InventoryOfEntry, Arrange, EntryAccepted, DistinctObjects, Fingerprints, MappingCount, DistinctKeys;
    if PayloadOf(s) == PayloadOf(t) {
      PayloadDeterminesInventory(s, t);
    }
    if s.collector == t.collector && Inventory(s) == Inventory(t) {
      AcceptedObjectsDistinct(s, rules);
      AcceptedObjectsDistinct(t, rules);
      ArrangeAll(s);
      ArrangeAll(t);
      MapKeepsMultisets(v => Arrange(v), Map(e => InventoryOfEntry(e), s.entries), Map(e => InventoryOfEntry(e), t.entries));
      PayloadKeysDistinct(s);
      SortByForgetsOrder(PayloadKey(), Map(e => PayloadOfEntry(e), s.entries), Map(e => PayloadOfEntry(e), t.entries));
    }
  }

  // Duplicate owners.

  /** Another present entry also maps the object as its primary. */
  ghost predicate SharedWith(entries: seq<Entry>, i: int, j: int, id: string) {
    i != j && 0 <= j < |entries| && entries[j].presence == Present && OwnsPrimary(entries[j], id)
  }

  ghost predicate OwnsPrimary(e: Entry, id: string) {
    exists m | m in e.mappings :: m.role == Primary && m.objectId == id
  }

  lemma {:induction false} OwnersInEntry(mappings: seq<Mapping>, id: string)
    requires DistinctObjects(mappings)
    ensures OwnersIn(mappings, id) == if (exists m | m in mappings :: m.role == Primary && m.objectId == id) then 1 else 0
  {
    if mappings != [] {
      var front, last := mappings[..|mappings| - 1], mappings[|mappings| - 1];
      assert mappings == front + [last];
      EarlierDiffer(front, last);
      OwnersInEntry(front, id);
    }
  }

  lemma EarlierDiffer(front: seq<Mapping>, last: Mapping)
    requires DistinctObjects(front + [last])
    ensures DistinctObjects(front) && forall m | m in front :: m.objectId != last.objectId
  {
    var all := front + [last];
    forall m | m in front ensures m.objectId != last.objectId {
      var i :| 0 <= i < |front| && front[i] == m;
      assert all[i].objectId != all[|front|].objectId;
    }
    assert forall i | 0 <= i < |front| :: all[i] == front[i];
  }

  /** An object has two owners exactly when two present entries map it as their primary. */
  lemma {:induction false} OwnersCount(entries: seq<Entry>, id: string)
    requires forall e | e in entries :: DistinctObjects(e.mappings)
    ensures Owners(entries, id) > 0 <==> exists i :: 0 <= i < |entries| && entries[i].presence == Present && OwnsPrimary(entries[i], id)
    ensures Owners(entries, id) > 1 <==>
            exists i, j :: 0 <= i < |entries| && entries[i].presence == Present && OwnsPrimary(entries[i], id)
                           && SharedWith(entries, i, j, id)
  {
    hide DistinctObjects, OwnsPrimary;
    if entries != [] {
      var front, n := entries[..|entries| - 1], |entries| - 1;
      OwnersCount(front, id);
      OwnersInLast(entries[n], id);
      assert forall i | 0 <= i < n :: front[i] == entries[i];
      if i, j :| 0 <= i < n && front[i].presence == Present && OwnsPrimary(front[i], id) && SharedWith(front, i, j, id) {
        assert SharedWith(entries, i, j, id);
      }
      if i :| 0 <= i < n && front[i].presence == Present && OwnsPrimary(front[i], id) {
        if entries[n].presence == Present && OwnsPrimary(entries[n], id) {
          assert SharedWith(entries, i, n, id);
        }
        assert entries[i].presence == Present && OwnsPrimary(entries[i], id);
      }
      if i, j :| 0 <= i < |entries| && entries[i].presence == Present && OwnsPrimary(entries[i], id)
                 && SharedWith(entries, i, j, id) {
        var k := if i == n then j else i;
        assert front[k].presence == Present && OwnsPrimary(front[k], id);
        if i != n && j != n {
          assert SharedWith(front, i, j, id);
        }
      }
      if i :| 0 <= i < n && entries[i].presence == Present && OwnsPrimary(entries[i], id) {
        assert front[i].presence == Present && OwnsPrimary(front[i], id);
      }
    }
  }

  lemma OwnersInLast(e: Entry, id: string)
    requires DistinctObjects(e.mappings)
    ensures OwnersIn(e.mappings, id) == if OwnsPrimary(e, id) then 1 else 0
  {
    OwnersInEntry(e.mappings, id);
  }

  lemma ResolvedPrimary(e: Entry, targets: Targets, id: string)
    ensures (exists r | r in ResolveMappings(e, targets) :: r.role == Primary && r.objectId == id) <==> OwnsPrimary(e, id)
  {
    var sorted := SortBy(MappingKey(), e.mappings);
    MultisetMembers(sorted, e.mappings);
    if r :| r in ResolveMappings(e, targets) && r.role == Primary && r.objectId == id {
      ResolvedMember(e, targets, r);
    }
    if m :| m in e.mappings && m.role == Primary && m.objectId == id {
      assert m in sorted;
      var i :| 0 <= i < |sorted| && sorted[i] == m;
      assert ResolveMappings(e, targets)[i] in ResolveMappings(e, targets);
    }
  }

  /** A row that is mapped unambiguously is a duplicate exactly when a different present entry also has
      a primary mapping to the same object. */
  lemma DuplicateIffAnotherOwner(s: Snapshot, rules: TextRules, targets: Targets, owners: map<string, nat>, i: nat)
    requires Accepts(s, rules) && CountsOwners(owners, s.entries) && i < |s.entries|
    requires ResolveEntry(s.entries[i], targets, owners).state
             in {DuplicateMapping, SourceChangedSinceImport, MappedStale, MappedCurrent}
    ensures ResolveEntry(s.entries[i], targets, owners).state == DuplicateMapping <==>
            exists j, id :: OwnsPrimary(s.entries[i], id) && SharedWith(s.entries, i, j, id)
  {
    hide Accepts, DistinctObjects, OwnsPrimary, ResolveMappings, ResolveState, Owners, SharedWith;
    AcceptedObjectsDistinct(s, rules);
    var e := s.entries[i];
    var resolved := ResolveMappings(e, targets);
    DuplicateRung(e, resolved, targets, owners);
    if r :| r in resolved && r.role == Primary && CountOf(owners, r.objectId) > 1 {
      ResolvedPrimary(e, targets, r.objectId);
      OwnersCount(s.entries, r.objectId);
      AnotherOwner(s.entries, i, r.objectId);
    }
    if j, id :| OwnsPrimary(e, id) && SharedWith(s.entries, i, j, id) {
      ResolvedPrimary(e, targets, id);
      OwnersCount(s.entries, id);
      assert CountOf(owners, id) > 1;
    }
  }

  lemma DuplicateRung(e: Entry, mappings: seq<ResolvedMapping>, targets: Targets, owners: map<string, nat>)
    requires ResolveState(e, mappings, targets, owners) in {DuplicateMapping, SourceChangedSinceImport, MappedStale, MappedCurrent}
    ensures e.presence == Present
    ensures ResolveState(e, mappings, targets, owners) == DuplicateMapping <==>
            exists r | r in mappings :: r.role == Primary && CountOf(owners, r.objectId) > 1
  {
  }

  lemma AnotherOwner(entries: seq<Entry>, i: nat, id: string)
    requires i < |entries|
    requires exists p, q :: 0 <= p < |entries| && entries[p].presence == Present && OwnsPrimary(entries[p], id)
                            && SharedWith(entries, p, q, id)
    ensures exists j :: SharedWith(entries, i, j, id)
  {
    hide OwnsPrimary;
    var p, q :| 0 <= p < |entries| && entries[p].presence == Present && OwnsPrimary(entries[p], id)
                && SharedWith(entries, p, q, id);
    assert SharedWith(entries, i, if p == i then q else p, id);
  }

  // Source fingerprints.

  /** The entry is one of those whose fingerprints are hashed for its source. */
  ghost predicate IsHashed(e: Entry, uri: string, fingerprint: string) {
    e.sourceUri == uri && e.presence == Present && e.entryFingerprint == fingerprint
  }

  lemma {:induction false} FingerprintsIff(entries: seq<Entry>, uri: string, fingerprint: string)
    ensures fingerprint in Fingerprints(entries, uri) <==> exists e :: e in entries && IsHashed(e, uri, fingerprint)
  {
    if entries != [] {
      var front, last := entries[..|entries| - 1], entries[|entries| - 1];
      assert entries == front + [last];
      FingerprintsIff(front, uri, fingerprint);
      var before := Fingerprints(front, uri);
      assert last in entries;
      if IsHashed(last, uri, fingerprint) {
        assert Fingerprints(entries, uri) == before + [fingerprint];
      }
      if fingerprint in Fingerprints(entries, uri) && fingerprint !in before {
        assert Fingerprints(entries, uri) == before + [last.entryFingerprint];
        assert IsHashed(last, uri, fingerprint);
      }
      if e :| e in entries && IsHashed(e, uri, fingerprint) && e != last {
        assert e in front;
      }
    }
  }

  function HashedOf(uri: string): Entry -> seq<string> {
    (e: Entry) => if e.sourceUri == uri && e.presence == Present then [e.entryFingerprint] else []
  }

  lemma {:induction false} FingerprintsAreFlat(entries: seq<Entry>, uri: string)
    ensures Fingerprints(entries, uri) == FlatMap(HashedOf(uri), entries)
  {
    if entries != [] {
      FingerprintsAreFlat(entries[..|entries| - 1], uri);
      FlatMapSnoc(HashedOf(uri), entries, |entries| - 1);
      assert entries[..|entries|] == entries;
    } else {
      FlatMapEmpty(HashedOf(uri), entries);
      assert entries[..0] == entries;
    }
  }

  lemma {:induction false} SortedTextsAreOne(a: seq<string>, b: seq<string>)
    requires multiset(a) == multiset(b) && SortedBy(Itself(), a) && SortedBy(Itself(), b)
    ensures a == b
  {
    hide KeyLe;
    assert |a| == |multiset(a)| == |multiset(b)| == |b|;
    if a != [] {
      MultisetMembers(a, b);
      HeadLeast(Itself(), a, b[0]);
      HeadLeast(Itself(), b, a[0]);
      KeyAntisymmetric([a[0]], [b[0]]);
      assert [a[0]][0] == [b[0]][0];
      TailCounts(a, b);
      SortedTextsAreOne(a[1..], b[1..]);
      assert a == [a[0]] + a[1..] && b == [b[0]] + b[1..];
    }
  }

  lemma SortedAlike(a: seq<string>, b: seq<string>)
    requires multiset(a) == multiset(b)
    ensures SortBy(Itself(), a) == SortBy(Itself(), b)
  {
    hide KeyLe, SortBy, Itself;
    SortByIsSorted(Itself(), a);
    SortByIsSorted(Itself(), b);
    SortedTextsAreOne(SortBy(Itself(), a), SortBy(Itself(), b));
  }

  /** The fingerprint of a source does not depend on the order of the entries. */
  lemma SourceFingerprintForgetsOrder(entries: seq<Entry>, entries': seq<Entry>, uri: string, rules: TextRules)
    requires multiset(entries) == multiset(entries')
    ensures SourceFingerprint(Fingerprints(entries, uri), rules) == SourceFingerprint(Fingerprints(entries', uri), rules)
  {
    hide Fingerprints, FlatMap, SortBy;
    FingerprintsAreFlat(entries, uri);
    FingerprintsAreFlat(entries', uri);
    FlatMapKeepsMultisets(HashedOf(uri), entries, entries');
    SortedAlike(Fingerprints(entries, uri), Fingerprints(entries', uri));
  }

  // Summary counts.

  const STATES: seq<State> :=
    [MappedCurrent, MappedStale, UnmappedOperational, IntentionallyUnmapped, OrphanedCatalogReference,
     MissingSource, AmbiguousMapping, DuplicateMapping, SourceChangedSinceImport]

  const CLASSIFICATIONS: seq<Classification> :=
    [Operational, Retired, Historical, Research, Migration, Generated, Ignored]

  datatype Summary = Summary(total: nat, byState: map<State, nat>, byClassification: map<Classification, nat>)

  lemma EveryStateListed(s: State)
    ensures s in STATES
  {
    assert STATES[0] in STATES && STATES[1] in STATES && STATES[2] in STATES && STATES[3] in STATES && STATES[4] in STATES
           && STATES[5] in STATES && STATES[6] in STATES && STATES[7] in STATES && STATES[8] in STATES;
  }

  lemma EveryClassificationListed(c: Classification)
    ensures c in CLASSIFICATIONS
  {
    assert CLASSIFICATIONS[0] in CLASSIFICATIONS && CLASSIFICATIONS[1] in CLASSIFICATIONS
           && CLASSIFICATIONS[2] in CLASSIFICATIONS && CLASSIFICATIONS[3] in CLASSIFICATIONS
           && CLASSIFICATIONS[4] in CLASSIFICATIONS && CLASSIFICATIONS[5] in CLASSIFICATIONS
           && CLASSIFICATIONS[6] in CLASSIFICATIONS;
  }

  lemma NamesAreDistinct()
    ensures Distinct(STATES) && Distinct(CLASSIFICATIONS)
  {
  }

  function StateOf(): Detail -> State {
    (d: Detail) => d.state
  }

  function ClassificationOf(): Detail -> Classification {
    (d: Detail) => d.classification
  }

  /** `summarize_coverage`: both groups of counts are those of the rows and add up to their number. */
  method SummarizeCoverage(details: seq<Detail>) returns (s: Summary)
    ensures s.total == |details|
    ensures Tallies(s.byState, StateOf(), details) && Sum(STATES, s.byState) == s.total
    ensures Tallies(s.byClassification, ClassificationOf(), details) && Sum(CLASSIFICATIONS, s.byClassification) == s.total
  {
    forall k ensures k in STATES { EveryStateListed(k); }
    forall k ensures k in CLASSIFICATIONS { EveryClassificationListed(k); }
    NamesAreDistinct();
    var byState, byClassification := Zeros(STATES), Zeros(CLASSIFICATIONS);
    for i := 0 to |details|
      invariant Tallies(byState, StateOf(), details[..i]) && Tallies(byClassification, ClassificationOf(), details[..i])
    {
      CountNext(byState, StateOf(), details, i);
      CountNext(byClassification, ClassificationOf(), details, i);
      byState := byState[details[i].state := byState[details[i].state] + 1];
      byClassification := byClassification[details[i].classification := byClassification[details[i].classification] + 1];
    }
    assert details[..|details|] == details;
    TalliesSum(STATES, StateOf(), details, byState);
    TalliesSum(CLASSIFICATIONS, ClassificationOf(), details, byClassification);
    s := Summary(|details|, byState, byClassification);
  }
}
