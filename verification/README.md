# AHE-MCP evidence graph: verified model

AHE-MCP keeps an append-only graph of evidence. Claims enter it through reviewed admission:
source claims with the raw spans they quote, claims derived from other claims by AND, and
relations (implements, references, contradicts) that are reviewed on their own. This project
models the parts of the Go code that decide what may enter, what may be replayed and what a
reader is shown, and proves what those parts are for. `dafny verify dfyconfig.toml` checks
everything.

How the pieces fit:

- **Shared vocabulary.** `Outcomes`, `Ordering` (byte order, sorting, keyed indexes, counting)
  and `Evidence` (canonical records and artifact validation).
- **Recursive AND evidence.** `AdmittedCuts` is the list of endpoints that a review may speak
  about; `ClosureHeight` is the memoised depth-first search; `RecursiveClosure` the exact-cover
  validator around it; `Sealing`, `SealedAcceptance` and
  `SealCounterexample` the normal form; `ReviewBasis` the two entry points; `DepthOne` the
  earlier validator that the recursive one refines.
- **Concurrent commit.** `ImplementsCommit` is the reviewed-implements writer as interleaved
  client steps under snapshot isolation, with unique keys, blocking inserts, lost replies and
  three attempts.
- **Ordinary admission.** `Identity` frames ids; `AdmissionModel` builds mutations;
  `AdmissionSpec` says what an admission needs, writes and replays; `AdmissionInvariant`,
  `AdmissionReplay` and `AdmissionHistory` prove facts of every run; `AdmissionStore` is the
  store itself, proved to make exactly those steps.
- **Bounded read.** `BoundedRead` is the breadth-first search with node, edge and depth budgets;
  `ReadAssembly` reads the selection back into a validated artifact, or refuses;
  `ReadableHistory` shows that the tables every run leaves behind are fit to be read.
- **Role policy.** `RoleManifest`, `RolePolicy`, `RoleVerifier` and `RoleInstall` compile a
  manifest to statements, run them over an access-control list and verify the result.
- **Candidate report.** `StrictOrder` sorts by a comparison; `CandidateProposer` ranks and selects;
  `CandidateReport` finds ambiguous symbols and accounts for what is left out.
- **Further protocols.** `MigrationLedger`, `Contradictions`, `Dimacs`.
- **Plain readings.** The modules called `Plain…` say what each part accepts, writes or returns
  once more, field by field over the raw lists and rows, without the indexes, walks and matching
  predicates that the code-shaped modules use, and prove that both mean the same: `PlainClosure`,
  `PlainReview` and `PlainSeal` (recursive evidence), `PlainCommit` (concurrent commit),
  `PlainMutation` and `PlainAdmission` (ordinary admission), `PlainRead` (bounded read),
  `PlainRoles`, `PlainCandidates`, `PlainContradictions` and `PlainLedger`.

Stores and mutable objects of the program are classes here (`HeightSearch`, `AdmissionStore`,
`AclStore`, `Schema`, `ContradictionStore`, `Stream`); loops of the program are loops here. Each
is proved against a specification that the lemmas then reason about. A transaction is one
method call, except in `ImplementsCommit`, where the steps inside a transaction are separate.

Things the model brought out about the code:

- Sealing an accepted recursive basis need not give an accepted one. It does exactly when no
  provenance record serves both a derivation and an edge whose endpoints sort the other way
  round (`SealedAcceptance.SealedAccepted`). `SealCounterexample.SealingCanBreakAcceptance` is a
  basis that breaks: the root's derivation and the edge from the source to the inner claim share
  one record, whose origins the seal sorts. Its cut passes the whole cut validation, for every
  choice of canonical node ids in a suitable order; such ids exist
  (`SealCounterexample.ExampleNames`). The admission writer never shares such records (`SealedAcceptance.WriterSeals`).
- Depth one takes rule texts of up to 16384 bytes, the recursive entry point only of up to 4000;
  otherwise they agree up to the order of provenance (`DepthOne.DepthOneEntryExactly`).
- A bounded read is refused, not truncated, when a derivation reaches outside the selection: a
  derived node as root at depth zero, relations without derived_from around a derived node, or a
  budget that cuts off a parent (`ReadAssembly.ReadCanonicalGraph`, `DerivedRootAtDepthZero`,
  `DerivedNodeWithoutItsRelation`). Whether it will be truncated, and when it is not whether it
  will be refused, is decided by the store and the request alone (`BoundedRead.LoadNeighbourhood`,
  `ReadAssembly.UntruncatedReadSucceeds`).
- The check for a cycle when a derivation is admitted can never find one, because the target
  has just been shown to be new (`AdmissionHistory.NoCycleWitness`).
- For a pending proposal, whether a stored row may be reused is decided by its body alone; the
  ownership and first-materializer checks cannot fail (`AdmissionHistory.ReuseDecidedByBody`).
- The policy compiler grants the supersession helper by profile and the other two helpers by
  manifest, so an installation can only succeed when these agree
  (`RoleInstall.InstalledAccepted`); all shipping manifests do (`RoleInstall.ShippingManifest`).
- Identity framing needs NUL-free fields: otherwise a statement can pass for a shorter one with
  one more parent (`Identity.FramingNeedsNulFree`).

## Model

| member | source | states |
|---|---|---|
| Evidence.ValidateArtifact | internal/evidencegraph/canonical.go:218-306 | Validation succeeds exactly when ids are distinct and complete, references resolve, every derivation has its node, provenance and a derived_from edge from each of its distinct parents, and every derived node has exactly one derivation. |
| Evidence.PairKeyInjective | internal/evidencegraph/canonical.go:264-266 | The NUL-joined key of an edge identifies its two ends when ids hold no NUL. |
| Evidence.PairKeyCollision | internal/evidencegraph/canonical.go:264-266 | Without that, two different pairs of ends share one key. |
| PlainClosure.ValidPlainly | internal/evidencegraph/canonical.go:218-404 | Validation over the lists alone: every record complete and named once, every node vouched for by its own payload and integrity record, every edge and derivation between listed nodes, every parent with its derived_from edge and the other way round (node ids without NUL). |
| ClosureHeight.RecursiveClosureHeight | internal/evidenceimplements/recursive_review_closure.go:130-175 | The search accepts exactly when, in terms of chains from the root, no parent is missing, no cycle is reachable, no chain has more than eight derived layers and no node is unreached; a rejection names a defect the graph has; the reported height is the longest chain; no node is expanded twice. |
| ClosureHeight.HeightSearch.Visit | internal/evidenceimplements/recursive_review_closure.go:134-151 | Visiting keeps the memo exact (every memoised height is certified by its parents) and every error it returns is true of the graph. |
| ClosureHeight.HeightSearch.Expand | internal/evidenceimplements/recursive_review_closure.go:152-166 | Enumerating parents restores the active set, records the exact height and never expands a node a second time. |
| ClosureHeight.RankedIsLongest | internal/evidenceimplements/recursive_review_closure.go:127-129 | Heights, not first visits, measure the longest path to a source. |
| ClosureHeight.RankedCertifies | internal/evidenceimplements/recursive_review_closure.go:130-170 | A finished memo that holds the root rules out missing parents, cycles and deep chains for everything reachable. |
| ClosureHeight.ParentOrderIrrelevant | internal/evidenceimplements/recursive_review_closure.go:154-160 | Reordering or repeating parents changes neither the verdict nor which defects exist. |
| AdmittedCuts.NewAdmittedCut | internal/evidenceimplements/canonical_implements_relation.go:229-290 | A cut is built exactly from one to the allowed number of endpoints per side, each with a typed id, bounded trimmed texts and a matching content hash, no id used twice in either side or both; it comes out sorted and addressed. |
| AdmittedCuts.ValidateAdmittedCut | internal/evidenceimplements/canonical_implements_relation.go:386-428 | Rebuilding and comparing accepts exactly the cuts with valid endpoints, both sides in order and the id that their content has. |
| PlainReview.CutByText | internal/evidenceimplements/canonical_implements_relation.go:386-428 | A cut is valid exactly when each endpoint's texts are trimmed and bounded, ids prefixed and different, kinds and derivation ids match, claims and excerpts have their hash, commits are 40 or 64 hexadecimal digits, and both sides ascend. |
| AdmittedCuts.SealedCutValid | internal/evidenceimplements/canonical_implements_relation.go:229-428 | What the builder makes passes the validator, whatever order its endpoints came in. |
| AdmittedCuts.FindSpecification | internal/evidenceimplements/canonical_implements_relation.go:687-698 | Binary search on the canonical cut finds the specification of an id, or nothing when there is none. |
| RecursiveClosure.RecursiveSameSet | internal/evidenceimplements/recursive_review_closure.go:108-125 | Counting decides set equality, because one of the two lists is known not to repeat. |
| RecursiveClosure.CheckNodes | internal/evidenceimplements/recursive_review_closure.go:34-57 | All nodes match their admitted specifications and derivations, and the collected sidecar ids are exactly those referenced. |
| RecursiveClosure.CheckEdges | internal/evidenceimplements/recursive_review_closure.go:61-73 | Edges are distinct pairs, each one declared parent with matching ordered provenance. |
| RecursiveClosure.CheckSidecars | internal/evidenceimplements/recursive_review_closure.go:74-77 | Comparing counts rejects exactly the artifacts with an unreferenced record. |
| RecursiveClosure.CheckRules | internal/evidenceimplements/recursive_review_closure.go:81-91 | Counting rules accepts exactly one matching rule for every derivation. |
| RecursiveClosure.CheckLeaves | internal/evidenceimplements/recursive_review_closure.go:92-104 | Counting source reviews accepts exactly one valid review for every source claim. |
| RecursiveClosure.ValidateRecursiveClosure | internal/evidenceimplements/recursive_review_closure.go:13-106 | The validator accepts exactly the declarative closure: valid artifact, matching nodes and edges, no padding, an acceptable graph, rules and source reviews that cover. |
| PlainClosure.AcceptedPlainly | internal/evidenceimplements/recursive_review_closure.go:13-175 | Acceptance, both ways: each node has an admitted specification of its id and kind whose claim and claim hash are its payload's; each derived node has the title, location, derivation and one provenance record over exactly its parents; each edge is a declared parent with [from, to] as origins; nothing is padding; paths of derivations from the root repeat nothing, have at most eight derived nodes and reach every node; rules and reviews cover one for one. |
| PlainClosure.AdmittedListed | internal/evidenceimplements/recursive_review_closure.go:34-57 | One node passes exactly when title, location, claim, hash, derivation, method, producer, trace and origins agree with the admitted specification and the listed records. |
| Sealing.NormalizeRecursiveBasis | internal/evidenceimplements/recursive_review.go:123-145 | The in-place normalizer computes the normal form: records by id, parents sorted, origins sorted only in provenance that a derivation names. |
| Sealing.SealForgetsOrder | internal/evidenceimplements/recursive_review.go:70-110 | Permuting records, parents or derivation origins gives the same sealed basis. |
| Sealing.NormalIsSameUpToOrder | internal/evidenceimplements/recursive_review.go:123-145 | The normal form holds the same records up to order. |
| Sealing.SealIdempotent | internal/evidenceimplements/recursive_review.go:70-110 | Sealing a sealed basis changes nothing. |
| PlainSeal.SealedPlainly | internal/evidenceimplements/recursive_review.go:70-145 | A sealed basis has its version and the digest of itself with the id cleared, keeps cut, root and every record, and lists records by id, parents and derivation origins in order, reviews by claim and rules by node; provenance that no derivation names is left alone. |
| SealedAcceptance.AcceptanceUpToOrder | internal/evidenceimplements/recursive_review_closure.go:13-106 | A rearranged accepted basis is accepted exactly when its edge provenance still lists endpoints in order. |
| SealedAcceptance.SealedAccepted | internal/evidenceimplements/recursive_review.go:123-145 | The sealed form of an accepted basis is accepted exactly when no provenance record is shared between a derivation and a backwards edge. |
| SealedAcceptance.DisjointProvenanceSeals | internal/evidenceimplements/recursive_review.go:123-145 | When derivations and edges have separate provenance records, an accepted basis seals to an accepted, stable one. |
| SealedAcceptance.WriterSeals | internal/evidenceingestion/admission.go:380-433 | With ids and provenance references made as the writer makes them and a collision-free hash, an accepted basis seals to an accepted, stable one. |
| SealCounterexample.SealingCanBreakAcceptance | internal/evidenceimplements/recursive_review.go:70-145 | For all canonical node ids with derived before root before source, every content hash, digest and source review that passes, a valid cut and a basis that the entry point admits and whose sealed form it does not admit. |
| ReviewBasis.NewRecursiveReviewBasis | internal/evidenceimplements/recursive_review.go:70-110 | Building succeeds exactly for a basis within all count and byte bounds, on a valid cut, with a derived root and an accepted closure, whose encodings fit; it returns the sealed form. |
| PlainReview.ReviewedPlainly | internal/evidenceimplements/recursive_review.go:70-110 | What the entry point admits, both ways: every text NUL-free and at most 16384 bytes, every count in bounds, a cut that is valid text by text, a derived root of that cut, and a closure that reads plainly. |
| PlainReview.BoundsByText | internal/evidenceimplements/recursive_review_closure.go:179-249 | The bounds check looks at every text and every list, and at nothing else. |
| PlainReview.SizeIsBytes | internal/evidenceimplements/recursive_review_closure.go:229-233 | The sizes in the bounds are lengths of UTF-8 encodings, byte by byte. |
| ReviewBasis.ValidateRecursiveReviewBasis | internal/evidenceimplements/recursive_review.go:112-121 | Validation accepts exactly the admissible bases that are their own sealed form. |
| ReviewBasis.BuiltBasisValidates | internal/evidenceimplements/recursive_review.go:70-121 | What the builder returns passes the validator exactly under the seal's condition, for digests that are themselves bounded texts and encodings that do not grow when an id is cleared. |
| ReviewBasis.ExactCover | internal/evidenceimplements/recursive_review_closure.go:13-106 | An admissible basis is an exact cover: edges with (parent, derivation) pairs, rules with derivations, reviews with source claims, each exactly one; all records used; all nodes under the root. |
| ReviewBasis.ParentHasEdge | internal/evidencegraph/canonical.go:363-404 | Every declared parent has its own derived_from edge when ids hold no NUL. |
| DepthOne.ValidateDepthOne | internal/evidenceimplements/canonical_implements_derived_review_chain.go:116-198 | The depth-one validator accepts exactly its declarative shape. |
| DepthOne.DepthOneRefined | internal/evidenceimplements/canonical_implements_derived_review_chain.go:116-198 | Whatever it accepts, the recursive validator accepts with the single matching rule. |
| DepthOne.DepthOneExactly | internal/evidenceimplements/canonical_implements_derived_review_chain.go:116-198 | On cuts with one derivation the two agree except that depth one demands the provenance in parent order. |
| DepthOne.NewDerivedReviewBasis | internal/evidenceimplements/canonical_implements_derived_review_chain.go:116-198 | The depth-one entry point succeeds exactly within its count and byte bounds, on a valid cut with the matching id, for what that validator accepts, and seals it without reordering. |
| PlainReview.DepthOneBoundsByText | internal/evidenceimplements/canonical_implements_derived_review_chain.go:364-428 | The depth-one bounds look at every text and list as well, with the smaller counts. |
| PlainReview.SealedDerivedPlainly | internal/evidenceimplements/canonical_implements_derived_review_chain.go:116-198 | Depth one seals by setting version and id and leaves every record where it is. |
| DepthOne.DepthOneEntryExactly | internal/evidenceimplements/canonical_implements_derived_review_chain.go:364-428 | Within the depth-one bounds and with a rule of at most 4000 bytes, its entry point admits exactly what the recursive entry point admits with the provenance in parent order. |
| ImplementsCommit.StepInv | internal/evidenceimplements/admission_postgres.go:94-163 | Every step of every client, and every other writer's step, keeps unique keys, row and edge pairing, claims apart and replies true. |
| ImplementsCommit.RowsStayUnique | migrations/000047_evidence_ingestion_implements_admission.up.sql:21-55 | Over every run committed rows share no request, receipt, edge or directed pair, and match implements edges one to one. |
| PlainCommit.StoredPlainly | internal/evidenceimplements/admission_postgres.go:254-263 | After every run: rows share no request, receipt, edge id or directed pair, edges no id or triple; each row has exactly one edge under its edge id, from specification to implementation, with its origin, trace and receipt; each implements edge is that of exactly one row. |
| ImplementsCommit.SuccessIsDurable | internal/evidenceimplements/admission_postgres.go:158-163 | A success reply means the wanted row and its edge are stored then and after every later step. |
| PlainCommit.SuccessPlainly | internal/evidenceimplements/admission_postgres.go:158-163 | After a success reply the wanted row and its one edge, field by field, are stored then and after every later step. |
| ImplementsCommit.StoredForever | internal/evidenceimplements/admission_postgres.go:126-163 | Rows, edges and replies are final. |
| ImplementsCommit.OneWriterPerRow | internal/evidenceimplements/admission_postgres.go:144-163 | The stored rows are exactly those some client's own transaction wrote, and two writes that share a key are by one client. |
| ImplementsCommit.OneFirstSuccess | internal/evidenceimplements/admission_postgres.go:162-162 | At most one reply per pair, request or receipt is not a replay. |
| PlainCommit.FirstPlainly | internal/evidenceimplements/admission_postgres.go:162-162 | Of two clients that share a request, receipt, edge id or pair only one is told that it was first. |
| ImplementsCommit.RivalNeverSucceeds | internal/evidenceimplements/admission_postgres.go:135-140 | Once a different authority holds a shared key, the rival never gets a success reply. |
| PlainCommit.RivalPlainly | internal/evidenceimplements/admission_postgres.go:135-140 | A client whose request, receipt, edge id or directed pair is held by another row only ever gets a failure. |
| ImplementsCommit.LoserReplays | internal/evidenceimplements/admission_postgres.go:340-353 | A client between attempts whose identical row is committed can, without further errors, only end in a replayed success, whatever the others do. |
| ImplementsCommit.ReplayTakesThreeSteps | internal/evidenceimplements/admission_postgres.go:78-90 | That replay is always possible in three of the client's own steps and changes nothing else. |
| ImplementsCommit.LosingInsertReplays | internal/evidenceimplements/admission_postgres.go:77-163 | From the start on, whatever all clients do: a client that is about to insert while its identical row is committed can, without further errors, only end in a replayed success. |
| ImplementsCommit.LosingInsertRecovers | internal/evidenceimplements/admission_postgres.go:77-163 | In every such state the insert does not wait, fails, and three more own steps reach the replayed success and change nothing else. |
| ImplementsCommit.StaleAttemptFails | internal/evidenceimplements/admission_postgres.go:346-349 | An attempt whose snapshot is older than the winner's commit never succeeds, so the retry needs a new snapshot. |
| ImplementsCommit.ReplayDecidedByRow | internal/evidenceimplements/admission_postgres.go:131-147 | Inside an attempt the stored edge check never fails: replaying is decided by whether the wanted row is in the snapshot, inserting by whether no coordinate is taken. |
| ImplementsCommit.DeferredChecksPass | migrations/000047_evidence_ingestion_implements_admission.up.sql:238-253 | With both inserts through, the deferred edge and authority-count checks pass for every packet the receipt checks accept. |
| ImplementsCommit.AtMostThreeAttempts | internal/evidenceimplements/admission_postgres.go:24-25 | No client begins a fourth attempt. |
| PlainCommit.RetriedExactly | internal/evidenceimplements/admission_postgres.go:340-353 | Another attempt starts exactly after a lost serialization, a deadlock or a taken key while one is left. |
| PlainCommit.AttemptInserts | internal/evidenceimplements/admission_postgres.go:126-163 | An undisturbed attempt with nothing in its way adds its row and that row's one edge, or, for a packet the receipt checks refuse, nothing. |
| PlainCommit.AttemptConflicts | internal/evidenceimplements/admission_postgres.go:131-137 | An undisturbed attempt that finds another row under its request, receipt or pair fails for good and changes nothing. |
| PlainCommit.AttemptReplays | internal/evidenceimplements/admission_postgres.go:131-142 | One that finds its own row replays and changes nothing. |
| PlainCommit.AttemptLosesEdge | internal/evidenceimplements/admission_postgres.go:144-157 | One whose edge id or implements pair is taken starts again, or fails as a taken key after the third time. |
| PlainCommit.AttemptLosesRow | internal/evidenceimplements/admission_postgres.go:144-157 | So does one whose edge id another row holds. |
| ImplementsCommit.LoadDerivedAdmissionRecord | internal/evidenceimplements/admission_postgres.go:267-297 | The lookup returns the only matching row, nothing when there is none, and a conflict exactly when several match. |
| ImplementsCommit.LookUpMeaning | internal/evidenceimplements/admission_postgres.go:131-147 | Absent, same and conflicting mean no row, only the wanted row, or some other row under the coordinates. |
| ImplementsCommit.AdmitReviewed | internal/evidenceimplements/admission_postgres.go:77-91 | The retry loop replies the first success or final error, at the latest the third, as the client phases of the protocol say. |
| Identity.FramingInjective | internal/evidencegraph/canonical.go:199-206 | Two NUL-free derivation identities hash the same bytes exactly when they agree up to surrounding space, parents included. |
| Identity.FramingNeedsNulFree | internal/evidenceingestion/admission.go:359-369 | Without NUL-freeness two different identities share their bytes. |
| Identity.TerminatedInjective | internal/evidencegraph/canonical.go:199-206 | NUL-free fields, and their number, can be read back from a frame. |
| Identity.NormalizeDerivationParents | internal/evidenceingestion/admission.go:482-504 | Parents are accepted exactly when there are 1 to 64, prefixed and distinct once trimmed, and come out sorted. |
| Identity.ParentOrderIrrelevant | internal/evidenceingestion/admission.go:482-504 | The order and margins of the given parents do not reach the identity. |
| Identity.ProvenanceIdsDiffer | internal/evidenceingestion/admission.go:380-433 | Under a collision-free hash a node's provenance id is never an edge's. |
| AdmissionModel.DerivedIdsIdentify | internal/evidenceingestion/admission.go:359-372 | Under a collision-free hash, equal node ids mean equal kind, proposal, statement, parents, method, producer and trace. |
| PlainMutation.ClaimIdsIdentify | internal/evidenceingestion/admission.go:506-512 | Under a collision-free hash two source-backed claims are one node exactly when statement and encoded spans agree up to margins. |
| PlainMutation.RawIdsIdentify | internal/evidenceingestion/admission.go:667-690 | Two quoted spans are one raw-evidence node exactly when their coordinates and text hash agree. |
| PlainMutation.EdgeIdsIdentify | internal/evidenceingestion/admission.go:576-594 | Two built edges share an id exactly when they join the same ends by the same relation. |
| PlainMutation.BuiltEdgesNamed | internal/evidenceingestion/admission.go:426-594 | Every built edge carries the id of its own ends and relation. |
| PlainMutation.KindsApart | internal/evidenceingestion/admission.go:506-535 | Nodes of different kinds never share an id. |
| AdmissionModel.BuildMutation | internal/evidenceingestion/admission.go:260-329 | Building succeeds exactly for buildable input and gives the specified rows. |
| PlainMutation.BuiltSourceRows | internal/evidenceingestion/admission.go:280-329 | One claim saying the statement, one raw-evidence node for each span with its text and locator, one edge from each to the claim, all with the proposal's source, producer, origins and traces. |
| PlainMutation.OriginsAppend | internal/evidenceingestion/admission.go:736-754 | Origins end with the locators in order; in a repository each file is named once, before its first locator. |
| AdmissionModel.BuildDerivationBacked | internal/evidenceingestion/admission.go:340-480 | The derivation-backed mutation: one node, one edge per parent, the edge map and the derivation record. |
| PlainMutation.BuiltDerivedRows | internal/evidenceingestion/admission.go:340-425 | One node over the trimmed parents in order, with method, producer and trace, and the derivation record that says the same. |
| PlainMutation.BuiltParentRows | internal/evidenceingestion/admission.go:426-447 | One edge from each parent to the node, filed under its parent. |
| AdmissionModel.BuiltWellFormed | internal/evidenceingestion/admission.go:260-480 | Built rows have the shape the derivation checks ask for and belong to the proposal. |
| AdmissionModel.WriterProvenanceSeparate | internal/evidenceingestion/admission.go:380-433 | Under a collision-free hash no built derivation shares its provenance record with a built edge, of its own or of another mutation. |
| AdmissionModel.NormalizeIdempotent | internal/evidenceingestion/admission.go:199-230 | Normalizing an input again changes nothing, defaults included. |
| PlainAdmission.NormalizedPlainly | internal/evidenceingestion/admission.go:199-230 | Texts come out trimmed; a blank decider or reason gets the default of its kind. |
| PlainAdmission.BuildablePlainly | internal/evidenceingestion/admission.go:260-300 | At most one of derivation and candidate, with one to sixty-four distinct node ids, a method, a producer and a trace; without either, quoted spans under a supported binding. |
| AdmissionInvariant.StepInv | internal/evidenceingestion/admission.go:36-148 | Submissions, admissions, dispositions and reviewed relations keep the invariant and everything stored under decided proposals. |
| AdmissionInvariant.WritersKept | internal/evidenceingestion/canonical_admission_persistence.go:696-799 | No later step adds or removes a first-materializer authority of an admitted proposal. |
| AdmissionInvariant.AcyclicInto | internal/evidenceingestion/admission.go:1127-1138 | Edges from stored nodes into one new node keep the derivation graph acyclic. |
| AdmissionReplay.ReplayEstablished | internal/evidenceingestion/canonical_admission_persistence.go:524-670 | Right after an admission commits, the same input is accepted as a replay. |
| AdmissionReplay.ReplayStable | internal/evidenceingestion/canonical_admission_persistence.go:524-670 | A replay that is accepted stays accepted in every later store. |
| AdmissionReplay.ReplayForever | internal/evidenceingestion/canonical_admission_persistence.go:524-670 | Whatever ran before an admission and runs after it, reviewed relations on its own claim included, the same input replays. |
| PlainAdmission.ReplaysExactly | internal/evidenceingestion/ordinary_admission_replay.go:8-52 | Once a request is accepted as a replay, another of that proposal is accepted exactly when it has the same decider and reason and asks for the same derivation over the same parents, in any order. |
| AdmissionReplay.AttachedIsIndependent | internal/evidenceingestion/canonical_admission_relations_replay.go:29-53 | A receipted relation that hangs off the admitted claim is always recognised as independent of the old mutation. |
| AdmissionReplay.ExtraEdgeDecides | internal/evidenceingestion/canonical_admission_relations_replay.go:15-57 | With one more edge carrying the proposal, the replay is accepted exactly when that edge has its own matching receipt. |
| PlainAdmission.ExtraEdgePlainly | internal/evidenceingestion/canonical_admission_relations_replay.go:15-57 | That is: it leaves the admitted claim, as a references edge of a source claim or an implements edge of a derived one, and its stored receipt names its ends, proposal, request and provenance. |
| AdmissionHistory.OneFirstNodeMaterializer | internal/evidenceingestion/canonical_admission_persistence.go:696-748 | In every reachable store each node has exactly one materialized binding, owned by its origin, and the authority count is one. |
| AdmissionHistory.OneFirstEdgeMaterializer | internal/evidenceingestion/canonical_admission_persistence.go:750-799 | The same for supports and derived_from edges; reviewed relations have a receipt and no binding. |
| AdmissionHistory.ReusedBelongsElsewhere | internal/evidenceingestion/canonical_admission_persistence.go:524-650 | In every reachable store each manifest binds one for one the rows built for some input of its proposal; every reused row belongs to another admitted proposal with one materializer and has the body the build gives; a derivation reuses nothing. |
| AdmissionHistory.ReuseDecidedByBody | internal/evidenceingestion/canonical_admission_persistence.go:197-238 | For a pending proposal a stored node is reusable exactly when its body is identical. |
| AdmissionHistory.EdgeReuseDecidedByBody | internal/evidenceingestion/canonical_admission_persistence.go:273-310 | For a pending proposal a colliding edge is reusable exactly when it has the same id and body. |
| AdmissionHistory.DerivationsFaithful | internal/evidenceingestion/admission.go:1055-1166 | In every reachable store derived_from is acyclic, each derived node has one derivation, and its parents are its incoming edges. |
| AdmissionHistory.NoCycleWitness | internal/evidenceingestion/admission.go:1140-1160 | After the new-target check the recursive cycle search finds nothing. |
| PlainAdmission.AdmissibleExactly | internal/evidenceingestion/admission.go:36-148 | In every sound store a pending proposal is admitted exactly when it is a succeeded statement, can be built, each row it builds is new or stored with the same content, and a derivation adds a new node under stored parents; no other check can fail. |
| PlainAdmission.AdmittedPlainly | internal/evidenceingestion/admission.go:112-147 | An admission adds the built rows, one decision with decider and reason, one manifest that binds them by position, at most one derivation, marks its proposal, and does nothing else. |
| PlainAdmission.DisposedPlainly | internal/evidenceingestion/proposal_disposition.go:24-147 | A disposition marks its pending proposal and adds one decision without rows. |
| PlainAdmission.NewStatementNewClaim | internal/evidenceingestion/admission.go:506-512 | In every reachable store a proposal whose statement no stored source claim makes gets a node id that is not taken. |
| PlainAdmission.NewStatementAdmitted | internal/evidenceingestion/admission.go:36-148 | Such a proposal is admitted exactly when its spans differ and those stored already have the content it gives them. |
| PlainAdmission.AttachedExactly | internal/evidenceingestion/canonical_admission_relations_replay.go:29-57 | A reviewed relation is attached exactly under its own matching receipt, from the claim its admitted proposal stands for to a stored source claim, where nothing collides; it then adds one edge and one receipt. |
| AdmissionStore.FindCycle | internal/evidenceingestion/admission.go:1140-1160 | The layered search finds a witness exactly when a derivation chain leads from the start to a target. |
| AdmissionStore.AttributedEdges | internal/evidenceingestion/canonical_admission_relations_replay.go:15-57 | The filter gives back the materialized list exactly when it is all there and every other edge is independent. |
| AdmissionStore.CheckAttribution | internal/evidenceingestion/canonical_admission_persistence.go:652-668 | The rows attributed to a proposal are its materialized ones and receipted relations. |
| AdmissionStore.ValidatePersistedMutation | internal/evidenceingestion/canonical_admission_persistence.go:524-670 | Checking stored authority row by row succeeds exactly when the stored rows are those the mutation would have left. |
| AdmissionStore.ValidateReplay | internal/evidenceingestion/ordinary_admission_replay.go:8-52 | The decision and derivation match the rebuilt mutation, or there is a conflict. |
| AdmissionStore.ValidateIdentity | internal/evidenceingestion/canonical_admission_persistence.go:116-149 | A mutation passes exactly when it repeats no node id, edge id or edge key. |
| AdmissionStore.AdmissionStore.InsertOrValidateNode | internal/evidenceingestion/canonical_admission_persistence.go:151-239 | A node is inserted when new, reused when it fits, and refused otherwise without a trace. |
| AdmissionStore.AdmissionStore.InsertOrValidateEdge | internal/evidenceingestion/canonical_admission_persistence.go:241-311 | The same for an edge, whose collisions are by id or by ends and relation. |
| AdmissionStore.AdmissionStore.PersistMutation | internal/evidenceingestion/canonical_admission_persistence.go:65-114 | All rows go in, with bindings that say which were materialized, exactly when each fits the store as it was. |
| AdmissionStore.AdmissionStore.ValidateDerived | internal/evidenceingestion/admission.go:1061-1166 | Succeeds on well-formed distinct rows exactly when the target is new and every parent is stored. |
| AdmissionStore.AdmissionStore.RecordAdmission | internal/evidenceingestion/canonical_admission_persistence.go:451-522 | Decision, derivation, manifest and outcome are written together unless a unique key is taken. |
| AdmissionStore.AdmissionStore.AdmitPendingProposal | internal/evidenceingestion/admission.go:36-148 | A call succeeds exactly when the specification accepts it; it then makes that step or replays without a change, and the same input replays from then on; a failure changes nothing. |
| AdmissionStore.ReplyIsStored | internal/evidenceingestion/admission.go:308-329 | What a reply says is stored: the admitted proposal, its one decision with the listed rows, and its derivation and parents if any. |
| AdmissionStore.AdmissionStore.AttachReviewedRelation | internal/evidenceimplements/admission_postgres.go:144-163 | A reviewed relation is stored with its receipt exactly when it hangs off an admitted claim and collides with nothing. |
| BoundedRead.BallIsWalks | internal/evidenceingestion/canonical_read_view.go:20-28 | The neighbourhood of depth k is the set of ends of walks of at most k edges from a root. |
| BoundedRead.QueryEdges | internal/evidenceingestion/canonical_read_view.go:203-250 | One query returns the first rows in id order up to the limit, and says whether there are more. |
| BoundedRead.AbsorbBatch | internal/evidenceingestion/canonical_read_view.go:176-191 | A batch is absorbed completely, or the node budget is full and an end of the batch is left out. |
| BoundedRead.LayerComplete | internal/evidenceingestion/canonical_read_view.go:169-196 | A layer without truncation adds exactly the next layer of the neighbourhood. |
| BoundedRead.LoadNeighbourhood | internal/evidenceingestion/canonical_read_view.go:158-201 | The flag is set exactly when nodes or edges differ from the whole neighbourhood, which is exactly when the neighbourhood has more nodes or more edges than the budgets; budgets hold; recorded edges have both ends and link every node to a root within the depth. |
| PlainRead.NeighbourhoodPlainly | internal/evidenceingestion/canonical_read_view.go:158-201 | The neighbourhood that a read is measured against: ends of walks along stored rows of the asked relations, any relation when none is asked, and the rows that touch shorter walks. |
| BoundedRead.NormalizeReadInput | internal/evidenceingestion/canonical_read_view.go:98-156 | A request is accepted exactly within the limits, with its roots trimmed, distinct and sorted. |
| ReadAssembly.ReadCanonicalGraph | internal/evidenceingestion/canonical_read_view.go:66-96 | The read as a caller sees it: an exact account of the neighbourhood of the trimmed roots and its artifact, or a refusal; in a sound store refused exactly when the request is, a root is missing, or a derivation of the selection has a parent or a parent edge outside it; when the neighbourhood fits the budgets, its success is a condition on store and request alone and the view is not truncated. |
| ReadAssembly.Assemble | internal/evidenceingestion/canonical_read_view.go:252-374 | Assembly succeeds exactly when all selected nodes are stored, records met twice agree, derivations can be read and the artifact is valid. |
| PlainRead.AssembledPlainly | internal/evidenceingestion/canonical_read_view.go:252-468 | A successful read shows exactly the selected node rows with kind and references and the recorded edge rows with ends, direction, relation and provenance; each sidecar is some row's own; each derived node has its stored derivation over all stored parents in order; lists ascend; the schema is the historical one exactly when a derivation has a use class. |
| ReadAssembly.LoadDerivations | internal/evidenceingestion/canonical_read_view.go:376-468 | Derivations are read exactly when every parent is selected, every parent edge recorded, joined rows agree and every derived node has rows; each comes out with its parents in order. |
| ReadAssembly.CollectRecords | internal/evidenceingestion/canonical_read_view.go:470-485 | Records are collected once per id, or refused exactly when two under one id differ. |
| ReadAssembly.AssemblesExactly | internal/evidenceingestion/canonical_read_view.go:252-468 | In a sound store a selection is put together, and its artifact valid, exactly when no derivation reaches outside it. |
| ReadAssembly.ClosedByEdges | internal/evidenceingestion/canonical_read_view.go:423-439 | That is the case exactly when every stored derived_from edge into the selection was recorded. |
| ReadAssembly.UntruncatedReadSucceeds | internal/evidenceingestion/canonical_read_view.go:158-201 | When the neighbourhood fits the budgets the outcome is known before the call: no derived node within reach, or derived_from is followed and every derived_from edge into the ball touches its interior. |
| ReadAssembly.DerivedRootAtDepthZero | internal/evidenceingestion/canonical_read_view.go:425-431 | A derived node as root at depth zero is always refused. |
| ReadAssembly.DerivedNodeWithoutItsRelation | internal/evidenceingestion/canonical_read_view.go:432-439 | Leaving derived_from out of the relations refuses every selection that holds a derived node. |
| ReadableHistory.ReachableStoreSound | internal/evidenceingestion/admission.go:260-592 | After every run of submissions, admissions, dispositions and reviewed relations from the empty store, the tables a read sees are sound: complete records that agree under one id, and derivations that match nodes and edges. |
| ReadableHistory.ReachableReadDecided | internal/evidenceingestion/canonical_read_view.go:66-468 | In every reachable store a read that fits its budgets is whole, and succeeds exactly under the condition known beforehand. |
| RoleManifest.BuildManifest | internal/dbrole/manifest.go:210-288 | Every shipping table is readable, writes are the profile's and only INSERT or UPDATE, helper functions follow the profile. |
| PlainRoles.WritersByTable | internal/dbrole/manifest.go:210-288 | Table by table, which profiles may insert and which may update. |
| PlainRoles.ManifestByTable | internal/dbrole/manifest.go:210-288 | A built manifest allows reading every shipping table, those writes, and nothing else. |
| PlainRoles.LocksByProfile | internal/dbrole/manifest.go:273-286 | Which profiles may call which lock function. |
| RolePolicy.PolicyStatements | internal/dbrole/policy.go:396-466 | The compiler emits the statement list exactly when every manifest table exists. |
| RolePolicy.CompiledReachesTarget | internal/dbrole/policy.go:417-465 | From any grants, running the list leaves the manifest in place of what the schema granted to the role or PUBLIC, and everything else as it was. |
| RolePolicy.TargetIdempotent | internal/dbrole/policy.go:70-79 | A second run changes nothing. |
| RolePolicy.TargetLeavesOthersAlone | internal/dbrole/policy.go:70-79 | Other roles and other schemas keep their grants, PUBLIC has nothing in the schema, the role has exactly the manifest. |
| PlainRoles.GrantsAfter | internal/dbrole/policy.go:417-465 | Which grants stand after an installation: the manifest's, and what belongs to other roles, other schemas, or everyone on the database. |
| RoleVerifier.ValidatePrincipalSnapshot | internal/dbrole/verify.go:613-754 | The snapshot check accepts exactly the snapshots whose attributes, memberships, scopes, functions, tables and columns are as expected. |
| PlainRoles.SnapshotPlainly | internal/dbrole/verify.go:585-754 | Acceptance attribute by attribute and right by right, for group roles and for login sessions. |
| RoleVerifier.AcceptedExactly | internal/dbrole/verify.go:613-754 | For a group role the verifier accepts exactly when the effective rights are the manifest's, nothing may be passed on and nothing is held elsewhere. |
| RoleInstall.OneMoreIsRejected | internal/dbrole/verify.go:726-752 | One further right, to the role or to everyone, makes the verifier reject: in scope, outside the schema, or with a grant option. |
| RoleInstall.OneFewerIsRejected | internal/dbrole/verify.go:703-739 | One missing right of the manifest makes the verifier reject. |
| RoleInstall.TargetExact | internal/dbrole/policy.go:192-212 | After the statements the rights are exact precisely when privileges are supported, helper functions match and PUBLIC was closed out of the database. |
| RoleInstall.InstalledAccepted | internal/dbrole/policy.go:197-213 | Verification after installing succeeds exactly under conditions that can be read beforehand. |
| PlainRoles.InstallablePlainly | internal/dbrole/policy.go:143-214 | When an installation succeeds, read off the role, the catalogue and the earlier grants. |
| RoleInstall.AclStore.InstallPolicy | internal/dbrole/policy.go:143-214 | Installation succeeds exactly under those conditions and reaches the target; otherwise nothing changes. |
| RoleInstall.InstallAgain | internal/dbrole/policy.go:70-79 | After an installation the same installation is possible again and changes nothing. |
| RoleInstall.ShippingManifest | internal/dbrole/manifest.go:210-288 | Every shipping manifest has unique tables, supported privileges and matching helper functions. |
| CandidateProposer.BestEight | internal/evidenceimplements/canonical_implements_candidate_proposer.go:234-255 | A specification keeps its best eight candidates, all before any it drops. |
| CandidateProposer.BestSixtyFour | internal/evidenceimplements/canonical_implements_candidate_proposer.go:257-265 | The report emits the best sixty-four of everything kept, each before every kept candidate it omits. |
| CandidateProposer.OrdersAgree | internal/evidenceimplements/canonical_implements_candidate_proposer.go:682-713 | Within one specification the global order is the local order. |
| CandidateProposer.BetterOnesToo | internal/evidenceimplements/canonical_implements_candidate_proposer.go:244-265 | If a candidate is emitted, so is every better one of its specification. |
| CandidateProposer.RanksAreAPrefix | internal/evidenceimplements/canonical_implements_candidate_proposer.go:244-265 | The ranks emitted for a specification are exactly 1 to k. |
| CandidateProposer.GeneratedIsEmittedPlusOmitted | internal/evidenceimplements/canonical_implements_candidate_proposer.go:247-281 | For each specification generated equals emitted plus omitted. |
| CandidateReport.OwnersFacts | internal/evidenceimplements/canonical_implements_candidate_proposer.go:417-434 | The owner table lists for each symbol exactly its implementations, each once, in byte order. |
| CandidateReport.BuildOwners | internal/evidenceimplements/canonical_implements_candidate_proposer.go:470-488 | The table comes out the same whatever order its entries are sorted in. |
| CandidateReport.AnyOrderSameGaps | internal/evidenceimplements/canonical_implements_candidate_proposer.go:436-457 | Sorted by symbol, the ambiguity gaps of a specification do not depend on the order of iteration. |
| CandidateReport.AmbiguousGaps | internal/evidenceimplements/canonical_implements_candidate_proposer.go:490-511 | Walking the table in an arbitrary order gives those gaps. |
| CandidateReport.GapMeaning | internal/evidenceimplements/canonical_implements_candidate_proposer.go:203-245 | A gap is found exactly when its specification mentions a symbol with several owners, or nothing matches it. |
| PlainCandidates.GapsPlainly | internal/evidenceimplements/canonical_implements_candidate_proposer.go:203-245 | Exactly these gaps are found: a mentioned name or symbol that two or more implementations answer to, with all of them in byte order, and a specification without any candidate. |
| CandidateReport.UniqueOrAmbiguous | internal/evidenceimplements/canonical_implements_candidate_proposer.go:344-361 | A standalone mention of an owned symbol is either an ambiguity gap or a match with its only owner. |
| PlainCandidates.JudgedPlainly | internal/evidenceimplements/canonical_implements_candidate_proposer.go:344-361 | A pair is a candidate exactly when the whole name is mentioned, or its simple symbol stands alone and names one implementation of the cut, or at least two terms are shared; the strength is 3, 2 or 1 in that order. |
| PlainCandidates.ListedPlainly | internal/evidenceimplements/canonical_implements_candidate_proposer.go:247-269 | At most sixty-four candidates are listed and at most eight of a specification, each with the strength and shared terms of its own pair. |
| PlainCandidates.ListedAhead | internal/evidenceimplements/canonical_implements_candidate_proposer.go:698-713 | They are listed by class, exact mentions before sole symbols before shared words, then by shared words, specification, name and id. |
| PlainCandidates.AheadIsListed | internal/evidenceimplements/canonical_implements_candidate_proposer.go:244-269 | Whatever is ahead of a listed candidate within its specification is listed, and earlier. |
| PlainCandidates.ExactNeverLeftOut | internal/evidenceimplements/canonical_implements_candidate_proposer.go:244-269 | An exact mention is never left out while a candidate of a lower class of its specification is listed. |
| PlainCandidates.LeftOutBehindEight | internal/evidenceimplements/canonical_implements_candidate_proposer.go:247-269 | With fewer than sixty-four listed, a candidate is left out only behind eight listed ones of its specification. |
| CandidateReport.ReportFacts | internal/evidenceimplements/canonical_implements_candidate_proposer.go:257-291 | The listed gaps are the first of all gaps in report order, and listed plus omitted are all; no two gaps share specification, kind and anchor; exactly the specifications with something left out have one truncation each, listing at most 32 ids in byte order and counting the rest. |
| PlainCandidates.LimitsPlainly | internal/evidenceimplements/canonical_implements_candidate_proposer.go:257-291 | At most 256 gaps are listed, the first in order, and at most 32 omitted ids of a specification; the rest is counted. |
| CandidateReport.AnyOrderSameReport | internal/evidenceimplements/canonical_implements_candidate_proposer.go:203-291 | Any two iteration orders of the owner and omission tables give equal reports. |
| CandidateReport.ProposeCandidates | internal/evidenceimplements/canonical_implements_candidate_proposer.go:169-311 | Refused exactly for too many pairs; otherwise the report equals that of every iteration order. |
| MigrationLedger.ValidateApplied | migrations/migrations.go:1671-1697 | The ledger check accepts exactly the checksum-matching prefixes of the embedded list. |
| PlainLedger.PrefixPlainly | migrations/migrations.go:1671-1697 | The ledger is accepted at k exactly when the first k names are recorded with their checksums and no other name is. |
| MigrationLedger.Bootstrap | migrations/migrations.go:1642-1669 | Bootstrap records exactly a prefix whose tables all exist with none after it, or refuses. |
| PlainLedger.BootstrapPlainly | migrations/migrations.go:1642-1669 | A schema from before the ledger is taken up to k exactly when the tables of the first k migrations exist and no later one's does. |
| MigrationLedger.Schema.ApplyUp | migrations/migrations.go:1303-1353 | A run succeeds exactly when it has a starting prefix, no remaining script fails and the required tables exist; it then completes the list, otherwise it changes nothing. |
| PlainLedger.CompletedPlainly | migrations/migrations.go:1327-1343 | After a run every embedded migration is recorded with its checksum, the scripts after the start ran in order, and their tables are there. |
| MigrationLedger.RunsInOrder | migrations/migrations.go:1303-1353 | Over any runs of any versions every script runs at most once and in list order. |
| MigrationLedger.RerunChangesNothing | migrations/migrations.go:1327-1343 | After a successful run the ledger starts at the end of the list and nowhere else, and the next run succeeds without a change whatever scripts would fail. |
| MigrationLedger.OlderListRefuses | migrations/migrations.go:1676-1684 | An older program refuses a ledger that a newer one extended. |
| Contradictions.SwapIrrelevant | internal/evidenceingestion/canonical_contradiction.go:184-206 | Swapping the endpoints prepares the same proposal, smaller id first. |
| PlainContradictions.AcceptablePlainly | internal/evidenceingestion/canonical_contradiction.go:175-218 | A request needs two different canonical nodes and, once trimmed, a request id, rationale and producer. |
| PlainContradictions.RequestsIdentify | internal/evidenceingestion/canonical_contradiction.go:175-260 | With hashes that do not collide, requests share a proposal id exactly when they name the same pair, and the content hash exactly when they also agree in every text but the request id. |
| Contradictions.OnePerPair | migrations/000040_evidence_ingestion_canonical_contradictions.up.sql:32-36 | After every run, other writers included, there is at most one proposal per unordered pair. |
| Contradictions.TerminalMeansDecided | internal/evidenceingestion/canonical_contradiction.go:352-369 | After every run a proposal is terminal exactly when it has one decision, with its outcome and edge. |
| Contradictions.EdgeMeansAdmitted | internal/evidenceingestion/canonical_contradiction.go:377-394 | After every run a contradicts edge joins the pair, in either direction, exactly when its proposal is admitted, and then it is the proposal's own edge, from the smaller to the larger node. |
| Contradictions.NeverInconsistent | internal/evidenceingestion/canonical_contradiction.go:352-369 | No run reaches a state in which the inconsistent-state and missing-endpoint branches are taken. |
| Contradictions.DecidedForever | internal/evidenceingestion/canonical_contradiction.go:395-402 | A decided proposal keeps its outcome, decision and edge through every later step. |
| Contradictions.ContradictionStore.Submit | internal/evidenceingestion/canonical_contradiction.go:77-175 | A submission creates the pending proposal, or answers with the stored one exactly when its content is the same. |
| PlainContradictions.SubmitPlainly | internal/evidenceingestion/canonical_contradiction.go:77-175 | A submission is accepted exactly when it is new, or what is stored under its request, or else its pair, has its content. |
| PlainContradictions.SubmittedPlainly | internal/evidenceingestion/canonical_contradiction.go:110-175 | A new proposal is the only change; an answered one changes nothing. |
| PlainContradictions.DecidablePlainly | internal/evidenceingestion/canonical_contradiction.go:352-402 | A decision goes through exactly for a pending proposal whose decision id is free and, to admit, when no edge has its id, its proposal, or its ends as a contradiction. |
| Contradictions.ContradictionStore.Admit | internal/evidenceingestion/canonical_contradiction.go:334-402 | Admission writes proposal, edge and decision together; an admitted proposal replays exactly for the same audit metadata, so the inconsistent-state branch is unreachable. |
| PlainContradictions.DecidedPlainly | internal/evidenceingestion/canonical_contradiction.go:377-394 | A decision marks its proposal, stores decider and reason, and when admitted writes one edge from the smaller node to the larger that names proposal and decision. |
| PlainContradictions.AuditPlainly | internal/evidenceingestion/canonical_contradiction.go:352-369 | A decided proposal replays exactly for the decider and reason of its one decision. |
| Contradictions.ContradictionStore.Dispose | internal/evidenceingestion/canonical_contradiction.go:404-471 | The same for the two dispositions, without an edge. |
| Dimacs.CheckShape | logicresolver/cnf.go:28-53 | The shape check accepts exactly contiguous variables, literals in range and covering origins. |
| Dimacs.WriteDimacs | logicresolver/cnf.go:56-74 | A valid formula is appended to the stream as specified; an invalid one writes nothing. |
| Dimacs.WrittenReadsBack | logicresolver/cnf.go:56-74 | A reader of the format recovers the variable count and the clause list. |
| Dimacs.WrittenDetermines | logicresolver/cnf.go:56-74 | Equal bytes mean equal formulas. |
| Dimacs.CheckAssignment | logicresolver/cnf.go:77-109 | Success means a valid shape, an assignment of exactly 1 to n and every clause true. |

## Left out

- SQL text, pgx, connection pools, locks and JSON encoding: rows are records, a query is a function of the rows, an encoding or digest is a function parameter.
- JSON itself: the length of an encoding is a function parameter, and characters stand for Unicode code points, so invalid UTF-8 cannot be written down.
- SHA-256 itself, target anchors, RFC 3339 times and hexadecimal shapes in artifact validation: they are one-branch text checks.
- The packet contents of an implements receipt: `ImplementsCommit` keeps them as one text column and as the set of rows the deferred checks accept; a failing review reload is an error step.
- Commit replies lost after the commit took effect are modelled; crashes of the database are not.
- Historical derivations, supersession, withdrawal and the reviewed source-claim and endpoint writers: the admission store models ordinary admissions and the two reviewed relations.
- Submitting and disposing of proposals: steps of the admission specification, without a method of the store.
- Database collations: ordered queries are in byte order.
- Payload, temporal and integrity details of a node row beyond equality of bodies.
- Scanning names, claims and lexical terms by regular expression: `CandidateReport.Texts` holds the results as function parameters; candidate and report digests and the report's byte limit are left out.
- The use-state projection returned beside a bounded read, and the cached views of the query server.
- BoundedRead.LoadNeighbourhood: covers the selection; the errors of the assembly that follows it are in `ReadAssembly`.
- Evidence.ValidateArtifact: omits target anchors, temporal status and timestamps, and the shape of digests.
- ReadableHistory.ReachableStoreSound: for steps whose texts are complete, as the writers check before they write, and a hexadecimal hash without collisions; `ReadAssembly.ReadCanonicalGraph` also says what any other store gives.
- ReviewBasis.BuiltBasisValidates: the encoder is a parameter, so that clearing an id does not lengthen an encoding is a hypothesis.
- AdmissionModel.BuildMutation: hashes, encodings and locators are codec parameters; historical use classes are left out.
- AdmissionModel.BuildDerivationBacked: the same.
- ImplementsCommit.SuccessIsDurable: the wanted row is fixed per client, because an attempt whose reloaded review differs from the receipt's subject or display fails, which is an error step here.
- ImplementsCommit.AdmitReviewed: runs over a list of attempt outcomes; context cancellation and the receipt copy are left out.
- AdmissionStore.AdmissionStore.AdmitPendingProposal: without supersession and the replay refusals of the reviewed writers.
- AdmissionStore.AdmissionStore.AttachReviewedRelation: one atomic step; review reload and retry are in `ImplementsCommit`.
- RoleManifest.BuildManifest: the shipping table list is a parameter.
- MigrationLedger.Schema.ApplyUp: verifies required tables and no other schema objects.
- Contradictions.ContradictionStore.Submit: without the source proposal's provenance and byte bounds.
- Contradictions.ContradictionStore.Admit: decider and reason arrive trimmed and within bounds.
- Contradictions.ContradictionStore.Dispose: the same.
- Dimacs.WriteDimacs: the stream never fails.
- The login-session half of the role verifier is modelled as a snapshot check but no theorem about a session's grants is stated.
- Grants made by several grantors and role membership chains in the access-control list: one grantor and no membership, as the installer checks first.
- Schema-shape verification after migrations, and migration scripts beyond the tables they create.
- Review receipts of contradictions.
