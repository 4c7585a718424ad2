# Verified model of the Blockwart domain layer

Blockwart is an infrastructure catalog. Its domain layer consists of algorithms without I/O that
make strong promises: a relationship registry that keeps graphs acyclic, a write preview that leaks
nothing, normal forms, canonical digests, an optimistic copy of a live database, and more. This
project models those algorithms in Dafny and proves what they promise, for all inputs, all runs and
all interleavings. `dafny verify dfyconfig.toml` checks the whole project.

Loops that update variables are methods with loops, state machines and searches with mutable state
are classes, and each such method is proved against a specification function or predicate; what the
code promises is then proved about that specification. Expression-shaped code is modelled by
functions and lemmas. What these return is stated a second time, as a condition on the inputs in which
no step of the code appears, and proved to be the same: the outcomes, error codes, states, entries and
written documents of each component.

## Components

- **Relationships** (`References`, `Relationships`, `Digraphs`, `CycleSearch`, `RelationshipPasses`,
  `RelationshipRules`). Rows are checked against endpoint kinds, then as a collection. The recursive
  depth-first cycle search keeps `visited`, `active` and `path` in an object. Accepting a collection
  makes the whole `attached_to` and `uplinks_to` relations acyclic although the search sees a subgraph
  only, and the pass that stops at the first fault agrees with the pass that reports every fault.
  `RelationshipRules` states the accepted rows and collections, and every rejection, on the rows alone.
- **Decisions** (`Decisions`, `DecisionLinks`). Supersession links of all decisions form a graph; every
  write is guarded by a worklist search. Cycles never appear over any run of accepted writes, also from a
  catalog that already has some. `DecisionLinks` reads the edges off the texts of the references.
- **Update preview** (`Pointers`, `DiffWalk`, `DiffFacts`, `DiffSecrecy`, `UpdatePreview`, `PreviewBlur`,
  `PreviewEntries`). A walk over six parallel values (two snapshots, their rendered and their digest
  projections), and exactly what its digest tells apart; `PreviewEntries` says what an entry tells of its
  position.
- **Snapshot copy** (`SnapshotCopy`, `SnapshotMachine`). The copy of a live SQLite database as steps
  interleaved with an arbitrary writer of its three files.
- **Source coverage** (`SourceCoverage`, `SourceInventory`, `CoverageStates`). The state resolver, what
  each of its nine states stands for, the authorization filter, snapshot validation and the digest
  payload.
- **Interfaces** (`Texts`, `Interfaces`, `InterfaceFacts`, `InterfaceDocuments`, `InterfaceCanonical`,
  `InterfaceSecondPass`, `InterfaceTheorems`, `InterfaceStability`, `InterfaceAcceptance`,
  `InterfaceReadings`, `InterfaceExamples`). Three dependent loops over endpoints, access methods and
  ports, which inputs one pass settles, whose output further passes accept, and when three passes reach a
  fixed point.
- **Attention** (`AttentionSignals`, `Attention`, `AttentionOrder`, `AttentionRun`, `AttentionSummary`,
  `AttentionReadings`, `AttentionListing`, `Counts`). What each input raises, which item of a category
  and target is kept, in which order items are listed, and when the order of the inputs matters.
- **Migration** (`Pagination`, `MigrationAssets`, `MigrationChecks`, `MigrationCapture`, `MigrationRun`,
  `MigrationReadings`, `MigrationExamples`, `Numbers`). Reading pages of an arbitrary server, the capture
  of all items, and the validation that derives the plan, the comments and the asset table again while
  meeting references in another order.
- **Service components** (`ServiceComponents`, `ComponentEdits`, `ComponentReadings`). The validator,
  normalization and the four edits.
- **Target policy** (`TargetPolicy`, `TargetRules`). CIDR blocks of 32- and 128-bit addresses and the
  allowlist.
- **Schema** (`SchemaFields`, `SchemaValidation`, `SchemaTheorems`, `SchemaValues`). Path resolution,
  value validation and the published violations of a field.

`Ordering` and `TextOrder` hold the string and tuple order behind every `sorted(...)`; `JsonValues` and
`Wrappers` are shared datatypes.

## Where the code does not do what it says

Each of these is a lemma with a concrete input or a whole failing family, beside the exact condition
under which the promise holds (for the snapshot copy, a sufficient one).

- The complete preview digest does not separate every two proposals, although it is documented to
  cover every safe semantic change. Emptying a non-empty mapping and removing it share one preview
  (`PreviewBlur.EmptiedLooksRemoved`); two proposals share the payload exactly when they differ in
  nothing but which non-empty stored mappings they empty and which they remove
  (`PreviewBlur.SamePayloadIff`).
- The snapshot copy can return a mixture of instants when a side file flickers between the two state
  reads, or when the four separate `stat` calls of one identity are torn over two versions
  (`SnapshotCopy.FlickerBreaksTheCopy`, `SnapshotCopy.TornIdentityBreaksTheCopy`). It is exact when an
  absent file does not flicker and for each file either some identity field is fresh with every change
  or the whole identity is and no reading was torn (`SnapshotCopy.CopiedOneInstant`).
- Interface normalization is not idempotent for an explicit empty path, a host name read from a URL
  with outer white space, an explicit protocol spelled like TCP or UDP, and access methods that only
  name an endpoint without URL (`InterfaceExamples`). `InterfaceStability.StableIff` says, on the given
  document, exactly when a second pass changes nothing.
- The second pass can even reject what the first one wrote: an endpoint of a custom type with the protocol
  `TCP`, a URL with a blank host, and two access methods that name one endpoint without URL
  (`InterfaceExamples.CustomIsRejected`, `BlankHostIsRejected`, `TwiceByIdIsRejected`).
  `InterfaceAcceptance.SecondPassAcceptsIff` and `ThirdPassAcceptsIff` say, on the given document, exactly
  when the second and the third pass accept; exactly then three passes reach a fixed point
  (`InterfaceAcceptance.SettlesIff`).
- In the elevated view of the source coverage, whether a concealed object exists shows exactly when some
  entry is mapped to it (`SourceCoverage.ElevatedViewTellsExistence`), although a concealed object is
  documented not to affect the rows of either view.
- Whether an attention derivation rejects an unknown supporting code depends on the order of its
  inputs (`AttentionSummary.OrderDecidesRejection`). It is accepted in every order exactly when every
  code of an object or coverage row is known and every diagnostic with an unknown one is about the
  placement of an object whose placement is unknown (`AttentionOrder.AcceptedInEveryOrderIff`).
  It is accepted in some order exactly when every code of an object is known and every coverage row and
  diagnostic with an unknown one is settled by a known one of the same object
  (`AttentionOrder.AcceptedInSomeOrderIff`).
- A category that lists an item can be reported as not applicable
  (`AttentionSummary.ListedButNotApplicable`): exactly that of placement, when no valid and live object
  has a placement state and some counted diagnostic is an invalid placement edge
  (`AttentionSummary.ListedButNotApplicableIff`).
- A migration capture can succeed and then fail its own validation, for instance on an issue whose
  detail has another id than the index (`MigrationExamples.CapturedButInvalid`). What is captured is
  valid exactly when every item is known, that is, meets the demands only the validation makes: every
  entry of the asset list is identifiable, the detail has the indexed id, an issue is open or closed,
  and the metadata, commits, files, reviews, status, diff and patch of a pull request are well formed
  (`MigrationRun.CaptureThenValidate`). The check for duplicate asset paths never fires
  (`MigrationAssets.PathsNeverCollide`).
- A required field of a missing object, or below an array, is reported at a path that leads nowhere;
  and an item-required field below two array levels is rejected whatever the items hold
  (`SchemaTheorems.RequiredPathIff`, `BracketedRequirementLeadsNowhere`, `NestedArraysAreRejected`).
- A wrong container on the way to a field can raise a violation the field does not publish
  (`SchemaTheorems.ContainerFaultIsUnpublished`), exactly when the field is forbidden or its type has no
  type mismatch of its own (`SchemaTheorems.RejectionIsPublished`).
- A component put under an id with outer white space is checked after trimming: it is accepted or
  refused by the trimmed id (`ComponentEdits.PutComponentIff`).

## Model

| member | source | states |
|---|---|---|
| `References.ParseIffRendered` | src/blockwart/domain/references.py:22-33 | Exactly the rendered references with a non-empty id parse, and they parse to themselves. |
| `Relationships.Resolve` | src/blockwart/domain/relationships.py:943-961 | A resolved reference names a known endpoint of the kind it states and is rendered as it was written. |
| `Relationships.LinkedEdges` | src/blockwart/domain/relationships.py:840-865 | The edge maps the graph pass fills hold exactly the edges of the rows of their relation type, device to device for attachments. |
| `Relationships.SingleValuedIff` | src/blockwart/domain/relationships.py:657-671 | A child has at most one placement parent, and a runbook one responsible target, exactly when no collected set has two members. |
| `Relationships.SinglePrimaryIff` | src/blockwart/domain/relationships.py:851-882 | At most one primary edge per source and type, exactly when no collected list has two entries. |
| `Relationships.AttachmentCyclesAreDeviceOnly` | src/blockwart/domain/relationships.py:159-167 | Every object on a cycle of `attached_to` is a device: the endpoint rule lets nothing else close a cycle. |
| `Relationships.SubgraphSearchIsEnough` | src/blockwart/domain/relationships.py:853-865 | Among valid rows, the edges handed to the cycle search are acyclic if and only if the whole relation over all objects is. |
| `Relationships.AcceptedIsAcyclic` | src/blockwart/domain/relationships.py:628-676 | An accepted collection has no cycle in `attached_to` over hosts, systems, networks and devices, nor in `uplinks_to`. |
| `RelationshipRules.MayJoinIff` | src/blockwart/domain/relationships.py:159-174 | The pair table and the endpoint rule of each type allow exactly the listed joins of a source with a target object. |
| `RelationshipRules.ResolveIff` | src/blockwart/domain/relationships.py:931-961 | A text resolves to an object exactly when it is the reference of that object by its stored kind; each error says whether it is unreadable, dangling or of another kind. |
| `RelationshipRules.AcceptedRowIff` | src/blockwart/domain/relationships.py:528-554 | A row is accepted alone exactly when it joins two different stored objects that its type may join and its metadata is valid. |
| `RelationshipRules.BadTextIff` | src/blockwart/domain/relationships.py:528-539 | A row is rejected for its type or for a text exactly when the type is not registered, or the first bad text, source before target, is of that kind. |
| `RelationshipRules.BadJoinIff` | src/blockwart/domain/relationships.py:604-625 | A row of two named objects is a self-reference exactly when both are one object, otherwise of a wrong direction or of wrong endpoints exactly by its kinds and its type. |
| `RelationshipRules.RejectedRowIff` | src/blockwart/domain/relationships.py:628-652 | A row is rejected with the code of its endpoints, or, when they may be joined, with that of its metadata. |
| `RelationshipRules.NoSelfEdge` | src/blockwart/domain/relationships.py:612-617 | No collection of valid rows has an edge of any type from an object to itself. |
| `RelationshipRules.FirstFaultIff` | src/blockwart/domain/relationships.py:628-676 | A collection that is not accepted is rejected with the code of its first bad row, or for a repeated row, a second parent, primary link or target, or a cycle, in this order. |
| `RelationshipRules.AcceptableIff` | src/blockwart/domain/relationships.py:628-676 | A collection is accepted exactly when its rows stand alone, none is repeated, children, runbooks and sources have one parent, target and primary link, and no object is attached or uplinked to itself over any number of edges. |
| `CycleSearch.CycleFinder.Advance` | src/blockwart/domain/relationships.py:913-915 | Entering a node extends visited, active and path by it and keeps the search invariant. |
| `CycleSearch.CycleFinder.Retreat` | src/blockwart/domain/relationships.py:920-922 | Leaving a node restores path and active and ranks the node above everything it leads to. |
| `CycleSearch.CycleFinder.Visit` | src/blockwart/domain/relationships.py:907-922 | The recursive visit terminates; it returns a simple cycle, or restores path and active with the node finished. |
| `CycleSearch.FirstCycle` | src/blockwart/domain/relationships.py:902-928 | Nothing is returned exactly when the graph is acyclic; otherwise a closed walk of consecutive edges without a repeated node but its ends. |
| `RelationshipPasses.Collect` | src/blockwart/domain/relationships.py:633-652 | The dictionaries filled row by row are the edge maps of their relation. |
| `RelationshipPasses.CollectPrimaries` | src/blockwart/domain/relationships.py:850-852 | The primary lists per source and type are complete and in row order. |
| `RelationshipPasses.GraphDiagnostics` | src/blockwart/domain/relationships.py:829-899 | One diagnostic for each overfull target set and primary list, and for each cyclic graph one simple cycle. |
| `RelationshipPasses.ValidateCollection` | src/blockwart/domain/relationships.py:628-676 | A collection is accepted exactly when it is acceptable, and otherwise rejected with the first fault in the order of the checks. |
| `RelationshipPasses.Diagnose` | src/blockwart/domain/relationships.py:1057-1123 | Every invalid row, duplicate triplet, second parent, target, primary and cyclic graph among the valid rows is reported, and nothing else. |
| `RelationshipPasses.PassesAgree` | src/blockwart/domain/relationships.py:1040-1123 | A collection is accepted exactly when its diagnosis is empty. |
| `Decisions.CycleInvolving` | src/blockwart/domain/decisions.py:225-241 | The worklist search terminates and answers whether a non-empty walk leads from the written decision back to it. |
| `Decisions.CollectEdges` | src/blockwart/domain/decisions.py:146-156 | The edges of all documents are collected whatever the order of documents; only a self-reference of the written decision is an error. |
| `Decisions.ValidateDecisionIntegrity` | src/blockwart/domain/decisions.py:120-162 | A write is rejected exactly when it puts its decision on a cycle of the projected catalog; a self-reference of its own has its own error. |
| `Decisions.UntouchedEdgesWereThere` | src/blockwart/domain/decisions.py:146-156 | An edge that does not touch the written decision was there before the write. |
| `Decisions.AcceptedWriteAddsNoCycle` | src/blockwart/domain/decisions.py:120-162 | Every closed walk after an accepted write was one before it, also in a catalog that has cycles. |
| `Decisions.RunAddsNoCycle` | src/blockwart/domain/decisions.py:120-162 | Every cycle at the end of any run of guarded writes was there at its start. |
| `Decisions.RunsStayAcyclic` | src/blockwart/domain/decisions.py:120-162 | Any run of guarded writes keeps an acyclic catalog acyclic. |
| `Decisions.RejectsExactlyTheCycles` | src/blockwart/domain/decisions.py:158-162 | From an acyclic catalog the check accepts exactly the writes after which it is still acyclic. |
| `DecisionLinks.EdgeIff` | src/blockwart/domain/decisions.py:146-156 | An edge leads from one decision to another exactly when the first names the second as its successor or the second lists the first, as texts of decision references. |
| `DecisionLinks.OwnLoopIff` | src/blockwart/domain/decisions.py:210-222 | The self-reference of a write stands for exactly a link from the decision to itself in one of its two fields. |
| `DecisionLinks.ProjectedIff` | src/blockwart/domain/decisions.py:132-144 | The check sees the written decision as proposed and of every other the last readable decision row. |
| `DecisionLinks.AcceptedIff` | src/blockwart/domain/decisions.py:158-162 | A write is accepted exactly when no chain of links, from superseded decision to successor, leads from its decision back to it. |
| `DecisionLinks.BackLinkIsOneEdge` | src/blockwart/domain/decisions.py:150-156 | A successor that repeats the link of its predecessor adds no edge: a link stated from both sides is one edge. |
| `DecisionLinks.ForwardLinkIsOneEdge` | src/blockwart/domain/decisions.py:148-150 | A predecessor that names the successor which lists it adds no edge. |
| `DecisionLinks.BackLinkIsAccepted` | src/blockwart/domain/decisions.py:120-162 | Writing the matching back link into an acyclic catalog is never rejected. |
| `Pointers.EscapingIsUndone` | src/blockwart/domain/update_preview.py:226-227 | Decoding by section 4 of RFC 6901 undoes the escaping of a pointer segment. |
| `Pointers.PointerRoundTrip` | src/blockwart/domain/update_preview.py:157-158 | Decoding a pointer gives back its keys, so different positions have different pointers. |
| `DiffWalk.WalkReports` | src/blockwart/domain/update_preview.py:144-202 | The recursive walk lists exactly the changed positions it can descend to and may not enter. |
| `DiffFacts.EmptyIffEqual` | src/blockwart/domain/update_preview.py:124-141 | The complete diff is empty exactly when the two snapshots are equal, whatever the projections hide. |
| `DiffFacts.ReportsArePrefixFree` | src/blockwart/domain/update_preview.py:167-202 | No reported position lies inside another. |
| `DiffFacts.WalkHasNoRepeats` | src/blockwart/domain/update_preview.py:156-202 | No position is reported twice. |
| `DiffFacts.DiffPatchesBefore` | src/blockwart/domain/update_preview.py:144-202 | The complete diff applied to the leaves of the old snapshot gives the leaves of the new one, in any order of its entries. |
| `DiffSecrecy.AlikePublishAlike` | src/blockwart/domain/update_preview.py:144-202 | Proposals that look alike outside redacted positions and change the same visited positions publish the same entries. |
| `DiffSecrecy.SamePositionsVisitAlike` | src/blockwart/domain/update_preview.py:165-186 | Already the set of reported positions reveals any difference in which visited positions changed. |
| `UpdatePreview.WalkEntries` | src/blockwart/domain/update_preview.py:144-202 | The walk that extends its list while it recurses returns the published form of the specified changes. |
| `UpdatePreview.PreviewDiff` | src/blockwart/domain/update_preview.py:100-141 | Missing projections default as in the code; entries are sorted, cut at the bound and flagged, and the payload covers all of them. |
| `UpdatePreview.ProjectionDecodes` | src/blockwart/domain/update_preview.py:312-333 | The semantic projection loses nothing but what the redaction marker hides: it can be decoded. |
| `UpdatePreview.PathsStrictlyIncrease` | src/blockwart/domain/update_preview.py:124-135 | The pointers of the complete diff are strictly increasing. |
| `UpdatePreview.PathsAreDisjoint` | src/blockwart/domain/update_preview.py:144-202 | No pointer of the diff names a position inside another. |
| `UpdatePreview.PayloadRebuildsProposal` | src/blockwart/domain/update_preview.py:348-383 | Without redaction the hashed payload and the stored leaves determine the proposed leaves. |
| `UpdatePreview.PreviewEmptyIffEqual` | src/blockwart/domain/update_preview.py:124-141 | Entries and payload are empty exactly when nothing changed. |
| `PreviewEntries.ReportedIff` | src/blockwart/domain/update_preview.py:165-202 | A position is reported exactly when the snapshots differ there, it is not opened, and every position on the way to it is. |
| `PreviewEntries.ContainsRedactionIff` | src/blockwart/domain/update_preview.py:301-309 | A value counts as redacted exactly when the marker is found somewhere inside it. |
| `PreviewEntries.PublishedShows` | src/blockwart/domain/update_preview.py:245-280 | A side is redacted without text exactly when its rendered value holds the marker; otherwise it shows the full text up to 120 characters, or its first 120 as truncated, and its type. |
| `PreviewEntries.EntriesTell` | src/blockwart/domain/update_preview.py:190-202 | Every entry is that of one reported position and every reported position has one: added exactly when absent before, removed exactly when absent after, changed otherwise, with both sides and the path as published. |
| `PreviewEntries.PayloadTells` | src/blockwart/domain/update_preview.py:124-141 | Every entry of the hashed payload names a reported position and tells the same operation and sides there. |
| `UpdatePreview.IndistinguishableIff` | src/blockwart/domain/update_preview.py:205-223 | Two proposals that differ only under redacted positions get the same entries, flag and payload exactly when they differ from the stored object at the same visited positions. |
| `PreviewBlur.SamePayloadIff` | src/blockwart/domain/update_preview.py:348-383 | Two proposals share the complete payload, and then the whole preview, exactly when they differ at most in which non-empty stored mappings they empty and which they remove. |
| `PreviewBlur.EmptiedLooksRemoved` | src/blockwart/domain/update_preview.py:348-366 | Emptying and removing a non-empty mapping are different proposals with one and the same preview. |
| `SnapshotCopy.CopiedOneInstant` | src/blockwart/db/session.py:126-166 | If absence is steady and the readings of each file tell its changes, by a field chosen per file or by an identity read from single versions, a successful attempt copied one instant of all three files, for every interleaving. |
| `SnapshotCopy.EqualReadingsPin` | src/blockwart/db/session.py:183-202 | Equal identity readings of a file before and after that tell its changes pin the file down in between. |
| `SnapshotCopy.FlickerBreaksTheCopy` | src/blockwart/db/session.py:169-173 | Side files with real sizes that appear and disappear between the state reads can be copied from different instants. |
| `SnapshotCopy.TornIdentityBreaksTheCopy` | src/blockwart/db/session.py:189-202 | Fresh identities with real sizes, read by four calls, can mix two versions and collide with a later one, and the copy is of no instant. |
| `SnapshotMachine.TuplesEqualByFile` | src/blockwart/db/session.py:183-202 | Equal state tuples agree file by file, although absent files are left out of them. |
| `SnapshotMachine.CopyRun.ReadState` | src/blockwart/db/session.py:183-202 | The state tuple is put together from readings of the three files, one call after the other, amid writes. |
| `SnapshotMachine.CopyRun.CopyOptional` | src/blockwart/db/session.py:169-173 | A side file is copied if it exists and its copy is removed otherwise. |
| `SnapshotMachine.CopyRun.Try` | src/blockwart/db/session.py:132-160 | An attempt that finds equal states and hashes is a successful attempt, and the snapshot holds what it copied. |
| `SnapshotMachine.CopyRun.CopyStableSnapshot` | src/blockwart/db/session.py:126-166 | Whichever of the three attempts succeeds, the snapshot needs no recovery and holds one instant of a source that keeps its two promises; a source with a database that keeps still is copied as it is or reported to need recovery; giving up means that each attempt was disturbed or found no database. |
| `SourceCoverage.ResolveCoverage` | src/blockwart/domain/source_coverage.py:415-445 | One sorted row per entry, resolved with the number of present primary owners of each object. |
| `SourceCoverage.ResolveVisibleCoverage` | src/blockwart/domain/source_coverage.py:448-508 | The rows an ordinary or elevated viewer gets, over counts of the mappings that viewer may see. |
| `SourceCoverage.CoverageIsDetermined` | src/blockwart/domain/source_coverage.py:415-445 | The rows do not depend on how the owner counts are stored. |
| `SourceCoverage.OrdinaryViewIsErasure` | src/blockwart/domain/source_coverage.py:448-508 | The ordinary view is the view of the catalog from which every mapping to a concealed or missing object was erased. |
| `SourceCoverage.OrdinaryViewHidesTheRest` | src/blockwart/domain/source_coverage.py:448-508 | Worlds that agree on the visible mappings and targets show the same rows. |
| `SourceCoverage.OrdinaryViewHasNoSourceOnlyState` | src/blockwart/domain/source_coverage.py:91-101 | No row of the ordinary view carries a source-only state. |
| `SourceCoverage.ElevatedViewIsErasure` | src/blockwart/domain/source_coverage.py:448-508 | The elevated view is the view of the catalog from which mappings to concealed existing objects were erased and present entries mapped to such objects only were withdrawn. |
| `SourceCoverage.ElevatedViewHidesTheRest` | src/blockwart/domain/source_coverage.py:448-508 | Worlds that agree on the known targets and on what is left of the catalog show the same rows. |
| `SourceCoverage.ElevatedViewHidesConcealedTargets` | src/blockwart/domain/source_coverage.py:477-508 | The elevated view does not depend on the kind or staleness of concealed existing targets. |
| `SourceCoverage.ElevatedViewTellsExistence` | src/blockwart/domain/source_coverage.py:455-484 | The elevated views of a concealed existing object and of a missing one differ exactly when some entry is mapped to it. |
| `CoverageStates.OwnersIff` | src/blockwart/domain/source_coverage.py:418-428 | An object counts as owned twice exactly when two primary mappings of present entries name it. |
| `CoverageStates.StateIff` | src/blockwart/domain/source_coverage.py:594-620 | Each of the nine states is that of exactly the entries it stands for, by their presence, mappings, targets and the other owners; they are told apart. |
| `CoverageStates.CoverageTells` | src/blockwart/domain/source_coverage.py:415-445 | Coverage has one sorted row for every entry, with its fields, its mappings as resolved and the state that fits it. |
| `CoverageStates.ViewTells` | src/blockwart/domain/source_coverage.py:448-508 | The rows of a view are those of the entries shown to the viewer, each with its shown mappings alone; which entries and mappings are shown is stated on the targets and rights. |
| `SourceInventory.ValidateSnapshot` | src/blockwart/domain/source_coverage.py:344-394 | A snapshot is accepted exactly when its texts, bounds, keys, mappings and source fingerprints satisfy every rule and a stored digest is that of its payload. |
| `SourceInventory.CheckFingerprints` | src/blockwart/domain/source_coverage.py:383-394 | The source fingerprint of every entry is that of the entry fingerprints of its source. |
| `SourceInventory.PayloadDeterminesInventory` | src/blockwart/domain/source_coverage.py:288-341 | Equal payloads mean equal inventories. |
| `SourceInventory.PayloadIffInventory` | src/blockwart/domain/source_coverage.py:288-341 | For accepted snapshots the payload is the same for every order of entries and mappings and every audit timestamp, and for nothing else. |
| `SourceInventory.OwnersCount` | src/blockwart/domain/source_coverage.py:432-445 | An object has a second owner exactly when two present entries map it as their primary. |
| `SourceInventory.DuplicateIffAnotherOwner` | src/blockwart/domain/source_coverage.py:594-620 | A row that is otherwise mapped is a duplicate exactly when another present entry has a primary mapping to the same object. |
| `SourceInventory.SourceFingerprintForgetsOrder` | src/blockwart/domain/source_coverage.py:283-290 | The fingerprint of a source is that of its present entries, in any order. |
| `SourceInventory.SummarizeCoverage` | src/blockwart/domain/source_coverage.py:511-522 | The counts per state and per classification are those of the rows and each add up to their number. |
| `Texts.FreshIdentifier` | src/blockwart/domain/interfaces.py:654-661 | The invented identifier is not in use, is valid, and is the base itself when that is free. |
| `Texts.FirstFreeIs` | src/blockwart/domain/interfaces.py:654-661 | The identifier is the base, or the base with the first number from two on that makes it free. |
| `Texts.CollapseJoins` | src/blockwart/domain/interfaces.py:664-667 | Runs of other characters are replaced independently; with the two lemmas before it this fixes the slug. |
| `Texts.FindUniqueIdentifier` | src/blockwart/domain/interfaces.py:654-661 | The counting loop terminates and finds the first free identifier. |
| `Texts.TriedGrows` | src/blockwart/domain/interfaces.py:657-660 | Each used candidate is a new member of the finite set of used ids. |
| `InterfaceFacts.TypeIsFixed` | src/blockwart/domain/interfaces.py:495-521 | A canonical endpoint type is canonical again with the same facts. |
| `InterfaceFacts.FactsAgain` | src/blockwart/domain/interfaces.py:356-469 | A second reading finds the same facts exactly when no hazard applied to the first. |
| `InterfaceFacts.EndpointFixedIff` | src/blockwart/domain/interfaces.py:356-469 | A second pass leaves an endpoint as it is exactly when none of the three hazards applied. |
| `InterfaceDocuments.CollectEndpoints` | src/blockwart/domain/interfaces.py:162-189 | The first loop registers each endpoint once per URL under a fresh id. |
| `InterfaceDocuments.LinkAccess` | src/blockwart/domain/interfaces.py:194-258 | A method drops an empty legacy URL, reuses the endpoint of a known URL, promotes an unknown one, or needs a used id. |
| `InterfaceDocuments.CollectAccessMethods` | src/blockwart/domain/interfaces.py:191-295 | The second loop links each method, checks its type, id and credentials, and writes it with a fresh id; the first failure rejects. |
| `InterfaceDocuments.CollectPorts` | src/blockwart/domain/interfaces.py:296-327 | The third loop keeps the ports that no endpoint and no earlier port represents. |
| `InterfaceDocuments.NormalizeInterfaceData` | src/blockwart/domain/interfaces.py:153-353 | The three loops and the service part give the canonical document, and a change is reported exactly when it differs. |
| `InterfaceSecondPass.SecondEndpoints` | src/blockwart/domain/interfaces.py:162-189 | A second pass keeps the number, ids and URLs of the endpoints, and keeps them all exactly when each is fixed. |
| `InterfaceSecondPass.SecondMethods` | src/blockwart/domain/interfaces.py:191-295 | A second pass keeps the access methods exactly when all name endpoints with a URL, and otherwise grows the endpoints. |
| `InterfaceTheorems.CanonicalDocument` | src/blockwart/domain/interfaces.py:153-353 | On every accepted input: valid distinct endpoint ids, distinct URLs, distinct access ids, every named endpoint exists, ports distinct and not those of endpoints, a service available exactly when it has endpoints. |
| `InterfaceTheorems.SettledIff` | src/blockwart/domain/interfaces.py:153-353 | A second pass returns a canonical document unchanged exactly when each endpoint is fixed and each method that names an endpoint names one with a URL. |
| `InterfaceReadings.TransportIff` | src/blockwart/domain/interfaces.py:388-394 | The transport is the stated one, else a protocol that names one, else udp exactly for a UDP URL or a UDP endpoint. |
| `InterfaceReadings.ProtocolIff` | src/blockwart/domain/interfaces.py:396-403 | The protocol is the scheme of the URL, else the stated one unless it names a transport, else that of the type. |
| `InterfaceReadings.EndpointIff` | src/blockwart/domain/interfaces.py:356-469 | An endpoint is normalized to a document exactly when the given one states its facts by these rules, an id is found, and the document shows them and keeps the rest. |
| `InterfaceReadings.LinkIff` | src/blockwart/domain/interfaces.py:199-258 | An access method is linked in one of five ways: nowhere, by a dropped legacy URL, by id, by a known URL or by a new one; one that fits none is rejected. |
| `InterfaceReadings.AccessIff` | src/blockwart/domain/interfaces.py:194-295 | A method is taken exactly when it is linked, has an access type, an id and credential references and an endpoint that is there; the written method shows them and keeps the rest. |
| `InterfaceReadings.PortTakenIff` | src/blockwart/domain/interfaces.py:472-487 | A port is kept exactly when no endpoint and no port before it has its number and transport. |
| `InterfaceReadings.DocumentTells` | src/blockwart/domain/interfaces.py:153-353 | Only documents whose lists are lists of objects are normalized; which lists appear in the result, and that the rest of the document stays. |
| `InterfaceReadings.ServiceShowsIff` | src/blockwart/domain/interfaces.py:556-602 | A stated service interface must agree with the endpoints; a missing one is available, not applicable or incomplete exactly by the endpoints and the legacy document. |
| `InterfaceStability.KeptEndpoints` | src/blockwart/domain/interfaces.py:162-189 | The kept endpoints are fixed exactly when the documents they come from, first of their URL, have no hazard, and the index holds exactly the URLs of all documents. |
| `InterfaceStability.PromotionIsFixedIff` | src/blockwart/domain/interfaces.py:211-241 | A promoted URL gives a fixed endpoint exactly when its host name carries no outer white space. |
| `InterfaceStability.StableIff` | src/blockwart/domain/interfaces.py:153-353 | A second pass returns the output unchanged exactly when, in the given document, every kept endpoint is free of hazards, every promoted URL has a tidy host, and every method that gives an id alone names, at its turn, an endpoint with a URL. |
| `InterfaceStability.OutputIsHarmless` | src/blockwart/domain/interfaces.py:356-469 | No hazard applies to a normalized endpoint, whatever hazard applied to its source. |
| `InterfaceStability.ThirdOutputIsStable` | src/blockwart/domain/interfaces.py:153-353 | If the second and the third pass accept, a fourth returns the third output unchanged. |
| `InterfaceAcceptance.AcceptedAgainIff` | src/blockwart/domain/interfaces.py:356-469 | A normalized endpoint is accepted again exactly when its source had no blank URL host, no shouted transport beside a type without a protocol, and no empty path beside a blank URL path. |
| `InterfaceAcceptance.SecondMethodsAccept` | src/blockwart/domain/interfaces.py:191-295 | A second pass accepts the methods exactly when each that names an endpoint without URL has a URL that is new at its turn and whose promotion can be read. |
| `InterfaceAcceptance.SecondPassAcceptsIff` | src/blockwart/domain/interfaces.py:153-353 | On the given document: a second pass accepts exactly when nothing fatal applies to a kept endpoint, no promoted URL gives a blank host, and every synthesized URL is new and readable. |
| `InterfaceAcceptance.SynthesizedIsPromoted` | src/blockwart/domain/interfaces.py:211-241 | An accepted second pass has a new endpoint for every synthesized URL. |
| `InterfaceAcceptance.ThirdPassAcceptsIff` | src/blockwart/domain/interfaces.py:153-353 | A third pass accepts exactly when no synthesized URL gives a blank host. |
| `InterfaceAcceptance.SettlesIff` | src/blockwart/domain/interfaces.py:153-353 | The next two passes accept and reach a document that a fourth returns unchanged exactly when the given document meets both conditions. |
| `InterfaceStability.Idempotent` | src/blockwart/domain/interfaces.py:153-353 | A checklist that needs no run: with plain endpoint fields, tidy URLs, and URLs on all endpoints if some method gives an id alone, a second pass changes nothing. |
| `InterfaceExamples.EmptyPathIsNotStable` | src/blockwart/domain/interfaces.py:356-469 | An explicit empty path is dropped, and the second pass takes the path of the URL. |
| `InterfaceExamples.UntidyHostIsNotStable` | src/blockwart/domain/interfaces.py:356-469 | A host name with outer white space from a URL is trimmed by the second pass. |
| `InterfaceExamples.ShoutingIsNotStable` | src/blockwart/domain/interfaces.py:356-469 | A protocol spelled in capitals changes on the second pass. |
| `InterfaceExamples.IdOnlyIsNotStable` | src/blockwart/domain/interfaces.py:191-295 | The address of an endpoint without URL, which only an access method's id names, becomes a new endpoint in the second pass. |
| `InterfaceExamples.TwiceByIdIsRejected` | src/blockwart/domain/interfaces.py:211-250 | Two access methods that name one endpoint without URL by its id make the second pass reject. |
| `InterfaceExamples.CustomIsRejected` | src/blockwart/domain/interfaces.py:356-469 | An endpoint of a custom type with the protocol TCP is normalized and then rejected. |
| `InterfaceExamples.BlankHostIsRejected` | src/blockwart/domain/interfaces.py:356-469 | An endpoint whose URL has a blank host is normalized and then rejected. |
| `AttentionSignals.QuietUnlessLive` | src/blockwart/domain/attention.py:621-655 | An object that is not live only raises access and integrity items, a corrupt one no more than those and an invalid monitoring document, and maintenance silences observations. |
| `Attention.CleanIff` | src/blockwart/domain/attention.py:600-619 | A derivation is rejected exactly when an item with an unknown code is raised before every item of its slot with the same or a lesser rank. |
| `Attention.CollectKeepsLeast` | src/blockwart/domain/attention.py:586-619 | Each category and target keeps one raised item, and none raised there has a lesser rank. |
| `Attention.KeyOrderIsRankOrder` | src/blockwart/domain/attention.py:465-475 | The zero-padded text order of keys is the numeric order of severity, category and reason rank, then of the target. |
| `Attention.OrderFree` | src/blockwart/domain/attention.py:567-715 | For distinct object ids no permutation of any input list changes the listed reasons and targets, their order, or the judged counts. |
| `Attention.RaisedWasJudged` | src/blockwart/domain/attention.py:621-709 | The category of an item was judged for some input, but for invalid placement edges and uncollected coverage. |
| `AttentionReadings.RaisedIff` | src/blockwart/domain/attention.py:621-709 | An object raises an item exactly when it gives the reason, with that code and time; each reason is stated on the object. |
| `AttentionReadings.JudgedIff` | src/blockwart/domain/attention.py:621-709 | An object is judged for a category exactly when it can give one of its reasons. |
| `AttentionReadings.DiagnosticIff` | src/blockwart/domain/attention.py:1019-1034 | A diagnostic about a counted object raises the first reason that applies, with its code, and nothing else. |
| `AttentionReadings.SeverityIff` | src/blockwart/domain/attention.py:138-150 | Which reasons are critical or information, and which are stale or unknown. |
| `AttentionListing.EventsIff` | src/blockwart/domain/attention.py:567-715 | The events of a derivation raise exactly what its objects, tasks, diagnostics, coverage rows and a missing snapshot do. |
| `AttentionListing.KeptIff` | src/blockwart/domain/attention.py:586-619 | A reason is kept for a target exactly when some input raises it there and none raises a reason of the category and lesser rank. |
| `AttentionListing.CategoryStateIff` | src/blockwart/domain/attention.py:1037-1065 | Each state of a category stands for exactly what was judged, listed and collected. |
| `AttentionRun.Derivation.Emit` | src/blockwart/domain/attention.py:586-619 | An item is kept unless its slot holds one of the same or a lesser rank; only a kept item can be rejected. |
| `AttentionRun.BuildDerivation` | src/blockwart/domain/attention.py:567-715 | It succeeds exactly when every counted due date is readable and the events are clean, and lists the kept items by strictly increasing key. |
| `AttentionSummary.Summarize` | src/blockwart/domain/attention.py:718-758 | The counts per severity, category and reason are those of the items and each add up to the total; each signal state follows from the judged count and the states seen. |
| `AttentionOrder.EveryOrderIff` | src/blockwart/domain/attention.py:600-619 | An input is accepted in every order of its lists exactly when every item with an unknown code is suppressed by one with a known code that an object raises itself. |
| `AttentionOrder.AcceptedInEveryOrderIff` | src/blockwart/domain/attention.py:600-619 | The same on the lists: every code of an object or coverage row is known, and every counted diagnostic with an unknown code is an invalid placement edge of an object whose placement is unknown. |
| `AttentionOrder.SomeOrderIff` | src/blockwart/domain/attention.py:600-619 | An input is accepted in some order exactly when every item with an unknown code has one with a known code of the same or a lesser rank in its slot; otherwise every order is rejected. |
| `AttentionOrder.AcceptedInSomeOrderIff` | src/blockwart/domain/attention.py:600-619 | The same on the lists: every code of an object is known, and every counted row or diagnostic with an unknown code has one of the same object with a known code and no greater rank, or the unknown placement of its object. |
| `AttentionOrder.KnownBefore` | src/blockwart/domain/attention.py:600-619 | In an accepted trace an item with an unknown code follows one with a known code that suppresses it. |
| `AttentionOrder.ObjectRaisesOnce` | src/blockwart/domain/attention.py:621-650 | One object raises at most one item of each category, and none for relationships, coverage or deadlines. |
| `AttentionSummary.OrderDecidesRejection` | src/blockwart/domain/attention.py:600-619 | Two orders of the same inputs, one accepted and one rejected for an unknown code. |
| `AttentionSummary.ListedStateIff` | src/blockwart/domain/attention.py:1037-1054 | A listed category is reported as not applicable exactly when it is that of placement and was judged for no input. |
| `AttentionSummary.ListedButNotApplicableIff` | src/blockwart/domain/attention.py:1019-1054 | On the inputs: exactly for placement, when no valid and live object has a placement state and some counted diagnostic is an invalid placement edge. |
| `AttentionSummary.ListedButNotApplicable` | src/blockwart/domain/attention.py:1037-1054 | A concrete input with a category that lists an item and is reported as not applicable. |
| `Counts.TalliesSum` | src/blockwart/domain/attention.py:730-740 | Counters over a complete vocabulary add up to the number of elements. |
| `Pagination.Paginate` | scripts/migration/export_gitea.py:322-386 | The loop over pages is the specified reading. |
| `Pagination.ReadingIsComplete` | scripts/migration/export_gitea.py:322-386 | Whatever the server, a successful reading is every page up to the last, no page contradicts the announced total, which is the number of items, and without a total only the last page is short. |
| `Pagination.TakeTells` | scripts/migration/export_gitea.py:322-386 | Each outcome of one page stands for exactly its condition on the reply, the announced total and the items so far. |
| `Pagination.ServedIsReadBack` | scripts/migration/export_gitea.py:322-386 | A server that cuts a list into pages is read back as that list exactly when the list fits into the pages allowed, the last of them short when no total is announced. |
| `MigrationAssets.MergeIdentity` | scripts/migration/export_gitea.py:1338-1355 | Merging into a table of compatible identities fails exactly on a conflict, and else holds the new one too. |
| `MigrationAssets.MergeAllIff` | scripts/migration/export_gitea.py:1338-1355 | Merging a list fails exactly when it contains a conflicting pair, and else holds each identity under its uuid. |
| `MigrationAssets.MergeForgetsOrder` | scripts/migration/export_gitea.py:1338-1355 | Neither the outcome nor the table depends on the order or repetition of references. |
| `MigrationAssets.PathsNeverCollide` | scripts/migration/export_gitea.py:1350-1351 | Canonical uuids hold no slash, so two of them never give one path. |
| `MigrationCapture.CommentsArePartitioned` | scripts/migration/export_gitea.py:927-962 | Every indexed comment is stored under exactly one item, and every stored comment is indexed. |
| `MigrationCapture.PlanPartitionsComments` | scripts/migration/export_gitea.py:1512-1522 | Every indexed comment is named by exactly one plan entry, and the tombstone names none. |
| `MigrationReadings.CandidatesIff` | scripts/migration/export_gitea.py:1259-1267 | The references of a payload are the objects in it, at any depth, with a uuid and a URL. |
| `MigrationReadings.IdentifyIff` | scripts/migration/export_gitea.py:1319-1339 | The identity of a reference is what its fields state, with the default name and the path made of uuid and file name. |
| `MigrationReadings.PlanTells` | scripts/migration/export_gitea.py:1512-1640 | The plan entry of an issue keeps its state, that of a pull request is closed, labelled as legacy and shows its metadata; labels, comments and assets are those of the payloads, listed once in order; the reserved number is a closed tombstone. |
| `MigrationReadings.MappingTells` | scripts/migration/export_gitea.py:1355-1385 | The mapping has one row for each identity met, ordered by uuid, with the size and digest of its file. |
| `MigrationReadings.CommentsAgree` | scripts/migration/export_gitea.py:927-962 | A stored comment is the indexed one with its id: both name the item as their parent and have one content. |
| `MigrationReadings.KnownIff` | scripts/migration/export_gitea.py:2299-2358 | Beyond its capture an item must have identifiable assets, the id it is indexed with, and, if an issue, an open or closed state. |
| `MigrationReadings.PullKnownIff` | scripts/migration/export_gitea.py:2362-2440 | Exactly which payloads of a pull request the validation knows. |
| `MigrationChecks.UniqueText` | scripts/migration/export_gitea.py:407-426 | Accepted exactly when each item has an accepted, non-empty text and no two the same. |
| `MigrationChecks.CheckReviews` | scripts/migration/export_gitea.py:2394-2414 | Accepted exactly when there is a list of comments for each review and no other, with unique ids and no comment in two lists. |
| `MigrationChecks.CheckPull` | scripts/migration/export_gitea.py:2363-2440 | Accepted exactly when metadata, commits, files, reviews, status, diff and patch of a pull request are as the validation demands. |
| `MigrationExamples.CapturedButInvalid` | scripts/migration/export_gitea.py:2314-2318 | A source whose capture succeeds although the details of its issues have other ids than the index, which the validation rejects. |
| `MigrationChecks.Unique` | scripts/migration/export_gitea.py:395-404 | The set of ids is returned exactly when each is an integer and none repeats. |
| `MigrationRun.CheckIndex` | scripts/migration/export_gitea.py:1228-1238 | The index is accepted exactly when the ids of labels, issues, pull requests and comments and the numbers are unique and issues and pull requests share no number. |
| `MigrationRun.Reconcile` | scripts/migration/export_gitea.py:927-962 | Accepted exactly when index and items hold the same comments with the same content and expected parent. |
| `MigrationRun.Pass.AddComments` | scripts/migration/export_gitea.py:1483-1496 | The comments of an item are added exactly when their ids are unique and new. |
| `MigrationRun.Pass.RecordAssets` | scripts/migration/export_gitea.py:1358-1386 | All references are recorded exactly when they can be identified, are compatible and downloadable; each asset is written once, to its own path. |
| `MigrationRun.Pass.CaptureItem` | scripts/migration/export_gitea.py:1469-1617 | One turn succeeds exactly when the item fits those before it, and yields its plan entry. |
| `MigrationRun.Pass.CheckItem` | scripts/migration/export_gitea.py:2240-2506 | The validation of one stored item succeeds exactly when it fits and is known, and yields the same plan entry from references in another order. |
| `MigrationRun.PlanIsWhole` | scripts/migration/export_gitea.py:1623-1645 | With the tombstone sorted in, the plan is numbered 1, 2, and so on without a gap. |
| `MigrationRun.CaptureItems` | scripts/migration/export_gitea.py:1443-1647 | The capture succeeds exactly when all items fit together, and writes the plan, the payloads and the asset mapping specified. |
| `MigrationRun.ValidateData` | scripts/migration/export_gitea.py:2102-2536 | The index, item, plan, comment and asset part of the validation accepts exactly the valid snapshots. |
| `MigrationRun.CheckMapping` | scripts/migration/export_gitea.py:2513-2536 | The stored mapping is accepted exactly when it is the one derived again from the files. |
| `MigrationRun.CaptureThenValidate` | scripts/migration/export_gitea.py:1443-1647 | Whatever orders the two passes meet references in, what one writes the other accepts exactly when every item is known. |
| `ServiceComponents.CheckItems` | src/blockwart/domain/service_components.py:124-151 | Component ids are valid and distinct, or the first bad or repeated one is reported. |
| `ServiceComponents.CheckDependencies` | src/blockwart/domain/service_components.py:153-203 | Dependencies are distinct edges between two different known components, or the first fault is reported. |
| `ServiceComponents.FindViolation` | src/blockwart/domain/service_components.py:98-204 | There is no violation exactly for an accepted document, and a reported one is at a real place of it. |
| `ServiceComponents.AcceptanceForgetsOrder` | src/blockwart/domain/service_components.py:98-204 | Acceptance does not depend on the order of components or dependencies. |
| `ComponentEdits.NormalizeAgain` | src/blockwart/domain/service_components.py:49-95 | Normalization is idempotent. |
| `ComponentEdits.PutServiceComponent` | src/blockwart/domain/service_components.py:230-268 | The search, the replacement and the renaming loop do the specified put. |
| `ComponentEdits.PutComponentIff` | src/blockwart/domain/service_components.py:230-268 | A put into an accepted document is accepted exactly when the trimmed id is valid and belongs to no other component. |
| `ComponentEdits.PutDependencyIff` | src/blockwart/domain/service_components.py:289-319 | A dependency put is accepted exactly when its trimmed ends are two different components and the trimmed edge is new or named as it is. |
| `ComponentEdits.RemoveComponentKeeps` | src/blockwart/domain/service_components.py:271-286 | Removing a component leaves the graph without it and its edges, which is accepted. |
| `ComponentEdits.RemoveDependencyKeeps` | src/blockwart/domain/service_components.py:322-341 | Removing a dependency leaves every other edge, and an accepted document. |
| `ComponentEdits.PutGraph` | src/blockwart/domain/service_components.py:258-267 | After a put the ids and edges are those before with the sought component renamed to the trimmed id. |
| `ComponentEdits.RenameMapsPaths` | src/blockwart/domain/service_components.py:262-267 | Under a renaming to an unused id a list of components is a path exactly when its renamed list is, and renaming back restores it. |
| `ComponentEdits.RenamedPathComesBack` | src/blockwart/domain/service_components.py:262-267 | Every path of the renamed graph is the image of a path. |
| `ComponentReadings.PutTells` | src/blockwart/domain/service_components.py:230-268 | A put writes the given component in the place of the sought one or at the end, keeps the others, renames every end of a dependency, and fails only for an unknown previous id. |
| `ComponentReadings.WrittenHolds` | src/blockwart/domain/service_components.py:49-95 | The written lists hold the trimmed elements and nothing else; roles and further keys stay. |
| `ComponentReadings.RemovalTells` | src/blockwart/domain/service_components.py:271-286 | Removing keeps exactly the other components and the dependencies that do not name it. |
| `ComponentReadings.PutDependencyTells` | src/blockwart/domain/service_components.py:289-319 | A put dependency replaces the first one with its ends or is added, and shows its description unless that is blank. |
| `TargetPolicy.ContainsIsInterval` | src/blockwart/domain/monitoring_policy.py:117-121 | Masked membership in a block is membership in its interval of addresses. |
| `TargetPolicy.BlocksNest` | src/blockwart/domain/monitoring_policy.py:127-132 | Of two blocks that share an address, the one with the longer prefix is inside the other (section 3.1 of RFC 4632). |
| `TargetPolicy.RangesAreDisjoint` | src/blockwart/domain/monitoring_policy.py:56-81 | No address is in two listed special ranges. |
| `TargetPolicy.SpecialPermittedIff` | src/blockwart/domain/monitoring_policy.py:112-142 | An address in a listed range is permitted exactly when some containing entry lies inside that range, equivalently when its prefix is as long. |
| `TargetPolicy.WiderNeverUnlocks` | src/blockwart/domain/monitoring_policy.py:112-142 | Entries wider than the range never unlock it. |
| `TargetPolicy.OrderIsIrrelevant` | src/blockwart/domain/monitoring_policy.py:228-232 | Neither the order of entries nor of ranges changes the decision or its reason. |
| `TargetRules.AddressPermittedIff` | src/blockwart/domain/monitoring_policy.py:112-142 | An address is permitted exactly when one entry covers it, lies within its listed special range, and is that very host if only the runtime calls it special. |
| `TargetRules.TargetPermittedIff` | src/blockwart/domain/monitoring_policy.py:144-169 | A target is permitted exactly when its scheme and port are allowed, it resolves, and every address is permitted. |
| `TargetRules.TargetDeniedIff` | src/blockwart/domain/monitoring_policy.py:144-169 | Each denial stands for exactly its condition, in the order they are looked for; that of an address is that of the first closed one. |
| `TargetRules.PinnedIs` | src/blockwart/domain/monitoring_policy.py:185-193 | The pinned address is IPv4 if there is one, and the least of its family. |
| `SchemaFields.ResolveValues` | src/blockwart/domain/object_schema.py:575-606 | The nested loops resolve the declared path as specified, stopping at the first container of the wrong type. |
| `SchemaFields.ResolveIsComplete` | src/blockwart/domain/object_schema.py:575-606 | The values resolved are exactly those at the locations the declared path names. |
| `SchemaFields.ResolveFaults` | src/blockwart/domain/object_schema.py:586-605 | Resolution only rejects for a container that is there and of the wrong type. |
| `SchemaValidation.FieldViolations` | src/blockwart/domain/schema_projection.py:300-325 | The published set, built branch by branch, is what the field's rules name. |
| `SchemaValidation.ValueRejectionIsPublished` | src/blockwart/domain/object_schema.py:609-744 | A rejected value of any allowed field carries a published violation, at its own location or an unexpected key of it. |
| `SchemaValidation.FirstMissingItemField` | src/blockwart/domain/object_schema.py:800-825 | The loops find the first item and key that is missing, as specified. |
| `SchemaTheorems.ValidateFields` | src/blockwart/domain/object_schema.py:544-572 | The rejection is that of the first field that rejects the document. |
| `SchemaTheorems.AcceptedIff` | src/blockwart/domain/object_schema.py:544-572 | A field accepts exactly the documents whose containers fit, that have it where required, and whose every value of it is accepted. |
| `SchemaValues.ValueAcceptedIff` | src/blockwart/domain/object_schema.py:609-721 | A value is accepted exactly when it has the JSON type of the field, meets its format, enumeration or reference kinds, lies within both bounds, has no key outside the listed ones and meets the constant. |
| `SchemaValues.ViolationIff` | src/blockwart/domain/object_schema.py:609-744 | A value is rejected with a violation exactly when that violation says so of the value and the field, the earlier checks being passed. |
| `SchemaValues.TypeViolationsIff` | src/blockwart/domain/object_schema.py:609-665 | The violations published for a type are exactly those its own check can raise, but for the kind of a reference. |
| `SchemaValues.RejectedAt` | src/blockwart/domain/object_schema.py:702-711 | A value is rejected where it is, or at the least key that is not listed. |
| `SchemaValues.FieldAcceptedIff` | src/blockwart/domain/object_schema.py:544-572 | A field accepts exactly the documents whose containers fit, that have what is required, and whose every value of it fits; a forbidden field has none. |
| `SchemaTheorems.ResolutionFailsIff` | src/blockwart/domain/object_schema.py:575-606 | Resolution fails exactly when some container on the way to the field is of the wrong type. |
| `SchemaTheorems.RejectionIsPublished` | src/blockwart/domain/object_schema.py:544-572 | A rejection of an allowed field is unpublished exactly when a container on the way is of the wrong type and the field is forbidden or its type names no type mismatch. |
| `SchemaTheorems.RejectedValueIsThere` | src/blockwart/domain/object_schema.py:544-572 | Whatever is rejected but for an absence is reported at a real location of the document. |
| `SchemaTheorems.RequiredPathIff` | src/blockwart/domain/object_schema.py:548-555 | An absent required field, itself an array or not, is reported as a missing key exactly when the object it belongs to is there and spells no key like it. |
| `SchemaTheorems.ItemRequirementIff` | src/blockwart/domain/object_schema.py:800-825 | The item requirement is met exactly when every item has the chain of keys spelled like the rest of the path. |
| `SchemaTheorems.MissingItemKey` | src/blockwart/domain/object_schema.py:800-825 | The reported path is a key that a real object misses, unless it lies below a second array of the path. |
| `SchemaTheorems.NestedArraysAreRejected` | src/blockwart/domain/object_schema.py:804-824 | Below two array levels the requirement rejects every document with an outer item and no bracketed key. |
| `SchemaTheorems.BracketedRequirementLeadsNowhere` | src/blockwart/domain/object_schema.py:550-555 | A required path below an array is reported with its brackets, where nothing is. |
| `SchemaTheorems.NestedRequirementLeadsNowhere` | src/blockwart/domain/object_schema.py:550-555 | A concrete required key of a missing object whose reported path leads nowhere. |
| `SchemaTheorems.ContainerFaultIsUnpublished` | src/blockwart/domain/object_schema.py:588-593 | A concrete rejection with a violation the field does not publish. |
| `Ordering.SortByForgetsOrder` | src/blockwart/domain/source_coverage.py:300-341 | Sorting by distinct keys depends on the elements alone, not on their order. |
| `TextOrder.StrLeIff` | src/blockwart/domain/source_coverage.py:445 | Texts are ordered by the code point at their first difference, a prefix first. |

## Left out

- SQL sessions, migrations of the schema, HTTP, MCP, the command line, git and the user interface are not modelled.
- Message texts, and the locations and messages of errors of the relationship, interface and migration modules, are not modelled; error codes are where the code distinguishes them.
- Hashes, JSON text, regular expressions other than those of identifiers, Unicode folding, `urlsplit`, address and timestamp parsing, the runtime's special-address registry and secret scans are parameters; equality of Python's 1, 1.0 and True is modelled for captured ids only.
- A status of a stored document that cannot be hashed raises a type error in the attention code; the model treats it as no text.
- `runbooks.py` repeats the supersession graph of decisions; one model covers both.
- The field lists of the exporter, the rules per object kind and the contract projections are data and are left out.
- Relationships.Resolve: the outcome of validating a row's metadata is a field of the row, because the metadata rules are a finite table.
- RelationshipPasses.Diagnose: returns the set of diagnostics without their prose; data references and stored dependencies are reported by later parts that are left out.
- UpdatePreview.PreviewDiff: stops at the payload before it is serialized and hashed.
- SnapshotCopy.CopiedOneInstant: is sufficient only; neither assumption can be left out, as the two counterexamples show, but a copy made without them can still happen to be of one instant.
- InterfaceStability.Idempotent: is sufficient only, because it follows no run; `InterfaceStability.StableIff` is exact.
- InterfaceSecondPass.SecondMethods: says nothing of rejection; `InterfaceAcceptance.SecondMethodsAccept` does.
- InterfaceStability.ThirdOutputIsStable: assumes that passes accept; `InterfaceAcceptance.SettlesIff` says when they do.
- AttentionOrder.EveryOrderIff: assumes that object ids are unique and that kinds hold no colon, as the closed list of kinds (src/blockwart/schemas/catalog.py:18-28) ensures.
- Attention.OrderFree: speaks of reasons and targets only, because the supporting code and observation time of equal ranks are those of the first item raised.
- AttentionRun.BuildDerivation: the `_derive_` functions appear as the list of counter bumps and items they give, in call order; only emitting, counting and the loops change state.
- MigrationRun.CaptureItems: the answers of the source are arbitrary but fixed for one capture; the confirmation capture and its comparison are left out.
- MigrationRun.ValidateData: covers the index, item, plan, comment and asset checks; endpoint evidence, page counts, the list of unavailable endpoints, the manifest and the consistency digests are left out.
- MigrationRun.CaptureThenValidate: speaks of the validation as far as `MigrationRun.ValidateData` covers it.
- MigrationRun.Pass.CheckItem: leaves out the endpoint evidence and page counts of an item, and that its files on disk are the ones the capture wrote.
- ComponentEdits.PutServiceComponent: keys of a component document besides its two lists are not kept, as in the code; other data of the service is not modelled.
- TargetPolicy: parsing of the allowlist and ports from configuration text is left out.
- SchemaTheorems.RejectionIsPublished: the rules that run after the fields of a kind are left out.
