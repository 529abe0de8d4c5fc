/**
 What an ordinary admission requires of the stored rows, what it leaves behind, when a
 replay of it is accepted, and what holds of every reachable store.
 */
module AdmissionSpec {
  import opened Outcomes
  import opened Ordering
  import opened Evidence
  import opened Identity
  import opened AdmissionModel

  datatype Db = Db(
    proposals: map<Id, Proposal>, nodes: map<Id, Node>, edges: map<Id, Edge>, derivations: map<Id, DerivationRow>,
    decisions: map<Id, Decision>, manifests: map<Id, Manifest>, receipts: map<Id, Receipt>)

  const STATEMENT := "statement"
  const SUCCEEDED := "succeeded"

  predicate IsAdmitted(db: Db, proposal: Id) {
    proposal in db.proposals && db.proposals[proposal].outcome.Admitted?
  }

  // ----- first materializers -----

  predicate Materializes(bindings: seq<Binding>, id: Id) {
    exists i :: 0 <= i < |bindings| && bindings[i].id == id && bindings[i].how.Materialized?
  }

  /** Manifest, decision and proposal agree that the owner was admitted under this decision. */
  predicate Authoritative(db: Db, d: Id, owner: Id) {
    && d in db.manifests && db.manifests[d].proposal == owner
    && d in db.decisions && db.decisions[d].proposal == owner && db.decisions[d].outcome.Admitted?
    && owner in db.proposals && db.proposals[owner].outcome == db.decisions[d].outcome
    && db.proposals[owner].canonicalRef == db.decisions[d].canonicalRef
  }

  function NodeWriters(db: Db, id: Id, owner: Id): set<Id> {
    set d | d in db.manifests && Authoritative(db, d, owner) && Materializes(db.manifests[d].nodes, id)
  }

  function EdgeWriters(db: Db, id: Id, owner: Id): set<Id> {
    set d | d in db.manifests && Authoritative(db, d, owner) && Materializes(db.manifests[d].edges, id)
  }

  // ----- admitting -----

  function Colliding(edges: map<Id, Edge>, e: Edge): set<Id> {
    set id | id in edges && (id == e.id || edges[id].SameTriple(e))
  }

  /** The row is new, or an identical one is stored under another proposal that first wrote it. */
  predicate NodeFits(db: Db, n: Node, reuse: bool) {
    n.id in db.nodes ==>
      && reuse && db.nodes[n.id].body == n.body && db.nodes[n.id].origin != n.origin
      && |NodeWriters(db, n.id, db.nodes[n.id].origin)| == 1
  }

  predicate EdgeFits(db: Db, e: Edge, reuse: bool) {
    Colliding(db.edges, e) != {} ==>
      && reuse && |Colliding(db.edges, e)| == 1 && e.id in db.edges
      && db.edges[e.id].SameBody(e) && db.edges[e.id].origin != e.origin
      && |EdgeWriters(db, e.id, db.edges[e.id].origin)| == 1
  }

  ghost predicate DistinctRows(m: Mutation) {
    DistinctKeys(m.nodes, NodeKey) && DistinctKeys(m.edges, EdgeKey) && DistinctKeys(m.edges, TripleKey)
  }

  ghost predicate Persistable(db: Db, m: Mutation) {
    && DistinctRows(m)
    && (forall i :: 0 <= i < |m.nodes| ==> NodeFits(db, m.nodes[i], m.derivation.None?))
    && (forall i :: 0 <= i < |m.edges| ==> EdgeFits(db, m.edges[i], m.derivation.None?))
  }

  /** A derivation may only append a new node below nodes that are already there. */
  predicate ParentsPresent(db: Db, m: Mutation) {
    m.derivation.Some? ==>
      && m.canonicalRef !in db.nodes
      && forall i :: 0 <= i < |m.derivation.value.parents| ==> m.derivation.value.parents[i] in db.nodes
  }

  /** No unique key of the records about the admission is taken. */
  predicate Recordable(db: Db, m: Mutation) {
    && (m.derivation.Some? ==>
          && m.derivation.value.id !in db.derivations
          && forall k :: k in db.derivations ==>
               && db.derivations[k].record.nodeId != m.derivation.value.nodeId && db.derivations[k].origin != m.proposal
               && db.derivations[k].parentEdges.Values !! m.parentEdges.Values)
    && m.decision !in db.decisions && (forall d :: d in db.decisions ==> db.decisions[d].proposal != m.proposal)
    && m.decision !in db.manifests && (forall d :: d in db.manifests ==> db.manifests[d].proposal != m.proposal)
  }

  ghost predicate Admissible(codec: Codec, db: Db, p: Proposal, input: AdmissionInput) {
    && p.outcome.Pending? && p.attempt == SUCCEEDED && p.kind == STATEMENT && Buildable(p, input)
    && var m := Build(codec, p, input);
       ParentsPresent(db, m) && Persistable(db, m) && Recordable(db, m)
  }

  function HowNode(db: Db, id: Id): Materialization {
    if id in db.nodes then Reused else Materialized
  }

  function HowEdge(db: Db, id: Id): Materialization {
    if id in db.edges then Reused else Materialized
  }

  function NodeBinding(i: nat, id: Id, how: Materialization): Binding {
    if i == 0 then Binding(CanonicalRef, 0, id, how) else Binding(RawNode, i - 1, id, how)
  }

  function EdgeBinding(i: nat, relation: Relation, id: Id, how: Materialization): Binding {
    Binding(if relation == DerivedFrom then Derived else Supports, i, id, how)
  }

  function NodeBindings(db: Db, m: Mutation): (b: seq<Binding>)
    ensures |b| == |m.nodes|
  {
    seq(|m.nodes|, i requires 0 <= i < |m.nodes| => NodeBinding(i, m.nodes[i].id, HowNode(db, m.nodes[i].id)))
  }

  function EdgeBindings(db: Db, m: Mutation): (b: seq<Binding>)
    ensures |b| == |m.edges|
  {
    seq(|m.edges|, i requires 0 <= i < |m.edges| =>
      EdgeBinding(i, m.edges[i].relation, m.edges[i].id, HowEdge(db, m.edges[i].id)))
  }

  function KindOf(m: Mutation): MutationKind {
    if m.derivation.None? then SourceBacked
    else if m.nodes != [] && m.nodes[0].body.kind == Candidate then CandidateKind
    else DerivedKind
  }

  function NodesWith(nodes: map<Id, Node>, more: seq<Node>): map<Id, Node> {
    Index(more, NodeKey) + nodes
  }

  function EdgesWith(edges: map<Id, Edge>, more: seq<Edge>): map<Id, Edge> {
    Index(more, EdgeKey) + edges
  }

  /** Stored rows win over built ones: a reused row keeps its owner. */
  function RowsAfter(db: Db, m: Mutation): Db {
    db.(nodes := NodesWith(db.nodes, m.nodes), edges := EdgesWith(db.edges, m.edges))
  }

  function DecisionFor(m: Mutation, input: AdmissionInput): Decision {
    Decision(m.proposal, Admitted, m.canonicalRef, m.rawNodes, m.edgeIds, input.decider, input.reason)
  }

  function ManifestFor(db: Db, m: Mutation): Manifest {
    Manifest(KindOf(m), m.proposal, m.canonicalRef, Admitted, NodeBindings(db, m), EdgeBindings(db, m))
  }

  function DerivationsAfter(db: Db, m: Mutation): map<Id, DerivationRow> {
    if m.derivation.None? then db.derivations
    else db.derivations[m.derivation.value.id := DerivationRow(m.derivation.value, m.parentEdges, m.proposal)]
  }

  function Mark(p: Proposal, outcome: Outcome, ref: Id): Proposal {
    p.(outcome := outcome, canonicalRef := ref)
  }

  function AfterMutation(db: Db, p: Proposal, m: Mutation, input: AdmissionInput): Db {
    Db(db.proposals[m.proposal := Mark(p, Admitted, m.canonicalRef)],
       NodesWith(db.nodes, m.nodes), EdgesWith(db.edges, m.edges), DerivationsAfter(db, m),
       db.decisions[m.decision := DecisionFor(m, input)], db.manifests[m.decision := ManifestFor(db, m)], db.receipts)
  }

  // ----- independently reviewed relations -----

  function ReceiptProvenance(r: Receipt): Provenance {
    Provenance("provenance:" + r.edge, [r.from, r.to, r.origin], r.edge, "ahe-wrap",
               if r.relation == References then "reviewed_references" else "reviewed_derived_implements",
               r.version, r.request, r.receiptId)
  }

  predicate Covers(r: Receipt, e: Edge) {
    && (r.relation == References || r.relation == Implements) && r.relation == e.relation
    && r.edge == e.id && r.from == e.from && r.to == e.to && r.origin == e.origin
    && e.provenance == ReceiptProvenance(r)
  }

  predicate Receipted(db: Db, e: Edge) {
    e.id in db.receipts && Covers(db.receipts[e.id], e)
  }

  /** The edge hangs off the claim its origin proposal was admitted as. */
  predicate HangsOff(db: Db, e: Edge) {
    && e.from in db.nodes && e.to in db.nodes && IsAdmitted(db, e.origin)
    && db.nodes[e.from].origin == e.origin && db.proposals[e.origin].canonicalRef == e.from
    && db.nodes[e.from].body.kind == (if e.relation == References then SourceClaim else DerivedClaim)
    && db.nodes[e.to].body.kind == SourceClaim
  }

  predicate Attachable(db: Db, e: Edge, r: Receipt) {
    Colliding(db.edges, e) == {} && e.id !in db.receipts && Covers(r, e) && HangsOff(db, e)
  }

  function AfterAttachment(db: Db, e: Edge, r: Receipt): Db {
    db.(edges := db.edges[e.id := e], receipts := db.receipts[e.id := r])
  }

  // ----- replay -----

  function MaterializedIds(bindings: seq<Binding>): set<Id> {
    set i | 0 <= i < |bindings| && bindings[i].how.Materialized? :: bindings[i].id
  }

  function OwnedNodes(db: Db, owner: Id): set<Id> {
    set id | id in db.nodes && db.nodes[id].origin == owner
  }

  function OwnedEdges(db: Db, owner: Id): set<Id> {
    set id | id in db.edges && db.edges[id].origin == owner
  }

  predicate StartsAtSourceClaim(m: Mutation) {
    exists i :: 0 <= i < |m.nodes| && m.nodes[i].id == m.canonicalRef && m.nodes[i].body.kind == SourceClaim
  }

  /** An edge the mutation did not write may carry its proposal only under its own receipt. */
  predicate Independent(db: Db, m: Mutation, e: Edge) {
    if e.relation == References then
      && m.derivation.None? && StartsAtSourceClaim(m)
      && e.from == m.canonicalRef && e.origin == m.proposal && Receipted(db, e)
    else
      && |m.nodes| == 1 && m.nodes[0].body.kind == DerivedClaim && m.derivation.Some?
      && e.relation == Implements && e.from == m.canonicalRef && e.origin == m.proposal && Receipted(db, e)
  }

  predicate EdgesAttributed(db: Db, m: Mutation, materialized: set<Id>) {
    && materialized <= OwnedEdges(db, m.proposal)
    && forall id :: id in OwnedEdges(db, m.proposal) && id !in materialized ==> Independent(db, m, db.edges[id])
  }

  predicate NodeBindingHolds(db: Db, m: Mutation, b: Binding, i: nat)
    requires i < |m.nodes|
  {
    && b == NodeBinding(i, m.nodes[i].id, b.how)
    && b.id in db.nodes && db.nodes[b.id].body == m.nodes[i].body
    && match b.how
       case Materialized => db.nodes[b.id].origin == m.proposal
       case Reused =>
         db.nodes[b.id].origin != m.proposal && |NodeWriters(db, b.id, db.nodes[b.id].origin)| == 1
  }

  predicate EdgeBindingHolds(db: Db, m: Mutation, b: Binding, i: nat)
    requires i < |m.edges|
  {
    && b == EdgeBinding(i, m.edges[i].relation, m.edges[i].id, b.how)
    && b.id in db.edges && db.edges[b.id].SameBody(m.edges[i])
    && match b.how
       case Materialized => db.edges[b.id].origin == m.proposal
       case Reused =>
         && db.edges[b.id].origin != m.proposal && m.derivation.None?
         && |EdgeWriters(db, b.id, db.edges[b.id].origin)| == 1
  }

  predicate ManifestFits(man: Manifest, m: Mutation) {
    && man.kind == KindOf(m) && man.proposal == m.proposal && man.canonicalRef == m.canonicalRef
    && man.outcome.Admitted?
    && |man.nodes| == |m.nodes| && |man.edges| == |m.edges|
  }

  predicate BindingsHold(db: Db, m: Mutation, man: Manifest)
    requires ManifestFits(man, m)
  {
    && (forall i :: 0 <= i < |m.nodes| ==> NodeBindingHolds(db, m, man.nodes[i], i))
    && (forall i :: 0 <= i < |m.edges| ==> EdgeBindingHolds(db, m, man.edges[i], i))
    && (m.derivation.Some? ==> forall i :: 0 <= i < |man.nodes| ==> man.nodes[i].how.Materialized?)
  }

  /** The stored authority and rows are those the mutation would have left. */
  predicate RowsHold(db: Db, m: Mutation) {
    && m.decision in db.manifests && ManifestFits(db.manifests[m.decision], m)
    && BindingsHold(db, m, db.manifests[m.decision])
    && OwnedNodes(db, m.proposal) == MaterializedIds(db.manifests[m.decision].nodes)
    && EdgesAttributed(db, m, MaterializedIds(db.manifests[m.decision].edges))
  }

  /** The derivation stored for the canonical node is the rebuilt one, or there is none of either. */
  ghost predicate DerivationHolds(db: Db, m: Mutation) {
    if m.derivation.Some? then
      exists k ::
        k in db.derivations && db.derivations[k] == DerivationRow(m.derivation.value, m.parentEdges, m.proposal)
    else
      forall k :: k in db.derivations ==> db.derivations[k].record.nodeId != m.canonicalRef
  }

  ghost predicate DecisionHolds(db: Db, p: Proposal, m: Mutation, input: AdmissionInput) {
    && m.decision in db.decisions && db.decisions[m.decision] == DecisionFor(m, input)
    && p.canonicalRef == m.canonicalRef && DerivationHolds(db, m)
  }

  /** A repeated admission is accepted. */
  ghost predicate ReplayHolds(codec: Codec, db: Db, input: AdmissionInput) {
    && IsAdmitted(db, input.proposal)
    && var p := db.proposals[input.proposal];
       && p.id == input.proposal && Buildable(p, input)
       && DecisionHolds(db, p, Build(codec, p, input), input) && RowsHold(db, Build(codec, p, input))
  }

  // ----- steps -----

  datatype Step =
    | Submit(p: Proposal)
    | Admit(input: AdmissionInput)
    | Dispose(proposal: Id, outcome: Outcome, decision: Id, decider: string, reason: string)
    | Attach(e: Edge, r: Receipt)

  ghost predicate Enabled(codec: Codec, db: Db, step: Step) {
    match step
    case Submit(p) => p.id !in db.proposals && p.outcome.Pending?
    case Admit(input) => input.proposal in db.proposals && Admissible(codec, db, db.proposals[input.proposal], input)
    case Dispose(proposal, outcome, decision, _, _) =>
      && proposal in db.proposals && db.proposals[proposal].outcome.Pending?
      && (outcome.Rejected? || outcome.AuditOnly?) && decision !in db.decisions
    case Attach(e, r) => Attachable(db, e, r)
  }

  function Apply(codec: Codec, db: Db, step: Step): Db
    requires step.Admit? ==>
             step.input.proposal in db.proposals && Buildable(db.proposals[step.input.proposal], step.input)
    requires step.Dispose? ==> step.proposal in db.proposals
  {
    match step
    case Submit(p) => db.(proposals := db.proposals[p.id := p])
    case Admit(input) =>
      var p := db.proposals[input.proposal];
      AfterMutation(db, p, Build(codec, p, input), input)
    case Dispose(proposal, outcome, decision, decider, reason) =>
      db.(proposals := db.proposals[proposal := Mark(db.proposals[proposal], outcome, "")],
          decisions := db.decisions[decision := Decision(proposal, outcome, "", [], [], decider, reason)])
    case Attach(e, r) => AfterAttachment(db, e, r)
  }

  // ----- every reachable store -----

  const EMPTY := Db(map[], map[], map[], map[], map[], map[], map[])

  predicate Ordinary(r: Relation) {
    r == SupportsClaim || r == DerivedFrom
  }

  ghost predicate NodeSound(db: Db, id: Id)
    requires id in db.nodes
  {
    db.nodes[id].id == id && IsAdmitted(db, db.nodes[id].origin) && |NodeWriters(db, id, db.nodes[id].origin)| == 1
  }

  ghost predicate EdgeSound(db: Db, id: Id)
    requires id in db.edges
  {
    var e := db.edges[id];
    && e.id == id && e.from in db.nodes && e.to in db.nodes && IsAdmitted(db, e.origin)
    && if Ordinary(e.relation) then |EdgeWriters(db, id, e.origin)| == 1
       else (e.relation == References || e.relation == Implements) && Receipted(db, e) && HangsOff(db, e)
  }

  ghost predicate ManifestSound(db: Db, d: Id)
    requires d in db.manifests
  {
    var man := db.manifests[d];
    && Authoritative(db, d, man.proposal) && man.canonicalRef == db.decisions[d].canonicalRef
    && (forall i, j :: 0 <= i < j < |man.nodes| ==> man.nodes[i].id != man.nodes[j].id)
    && (forall i, j :: 0 <= i < j < |man.edges| ==> man.edges[i].id != man.edges[j].id)
    && (forall i :: 0 <= i < |man.nodes| ==> NodeBound(db, man.proposal, man.nodes[i]))
    && (forall i :: 0 <= i < |man.edges| ==> EdgeBound(db, man.proposal, man.edges[i]))
  }

  /** A materialized row is its writer's own, a reused one is not. */
  ghost predicate NodeBound(db: Db, owner: Id, b: Binding) {
    b.id in db.nodes && (b.how.Materialized? <==> db.nodes[b.id].origin == owner)
  }

  ghost predicate EdgeBound(db: Db, owner: Id, b: Binding) {
    b.id in db.edges && Ordinary(db.edges[b.id].relation) && (b.how.Materialized? <==> db.edges[b.id].origin == owner)
  }

  ghost predicate DecisionSound(db: Db, d: Id)
    requires d in db.decisions
  {
    && db.decisions[d].proposal in db.proposals && !db.decisions[d].outcome.Pending?
    && db.proposals[db.decisions[d].proposal].outcome == db.decisions[d].outcome
  }

  predicate DerivationBacked(k: NodeKind) {
    k == DerivedClaim || k == Candidate
  }

  /** Sources of the derived_from edges into a node. */
  function DerivedParents(edges: map<Id, Edge>, node: Id): set<Id> {
    set id | id in edges && edges[id].relation == DerivedFrom && edges[id].to == node :: edges[id].from
  }

  ghost predicate DerivationSound(db: Db, k: Id)
    requires k in db.derivations
  {
    var row := db.derivations[k];
    && row.record.id == k && row.record.nodeId in db.nodes
    && DerivationBacked(db.nodes[row.record.nodeId].body.kind) && db.nodes[row.record.nodeId].origin == row.origin
    && Elements(row.record.parents) == DerivedParents(db.edges, row.record.nodeId)
  }

  ghost predicate HasDerivation(db: Db, node: Id) {
    exists k :: k in db.derivations && db.derivations[k].record.nodeId == node
  }

  ghost predicate DerivedPath(edges: map<Id, Edge>, path: seq<Id>) {
    forall i :: 0 <= i < |path| - 1 ==> DerivedStep(edges, path[i], path[i + 1])
  }

  ghost predicate DerivedStep(edges: map<Id, Edge>, from: Id, to: Id) {
    exists id :: id in edges && edges[id].relation == DerivedFrom && edges[id].from == from && edges[id].to == to
  }

  ghost predicate Acyclic(edges: map<Id, Edge>) {
    forall path :: DerivedPath(edges, path) && |path| > 1 ==> path[0] != path[|path| - 1]
  }

  ghost predicate NodesSound(db: Db) {
    forall id :: id in db.nodes ==> NodeSound(db, id)
  }

  ghost predicate EdgesSound(db: Db) {
    forall id :: id in db.edges ==> EdgeSound(db, id)
  }

  ghost predicate UniqueTriples(edges: map<Id, Edge>) {
    forall a, b :: a in edges && b in edges && edges[a].SameTriple(edges[b]) ==> a == b
  }

  ghost predicate ManifestsSound(db: Db) {
    forall d :: d in db.manifests ==> ManifestSound(db, d)
  }

  ghost predicate DecisionsSound(db: Db) {
    forall d :: d in db.decisions ==> DecisionSound(db, d)
  }

  ghost predicate OneDecisionEach(decisions: map<Id, Decision>) {
    forall c, d :: c in decisions && d in decisions && decisions[c].proposal == decisions[d].proposal ==> c == d
  }

  ghost predicate ProposalsKeyed(proposals: map<Id, Proposal>) {
    forall p :: p in proposals ==> proposals[p].id == p
  }

  ghost predicate EachDerivationSound(db: Db) {
    forall k :: k in db.derivations ==> DerivationSound(db, k)
  }

  ghost predicate OneDerivationEach(derivations: map<Id, DerivationRow>) {
    forall j, k :: j in derivations && k in derivations && j != k ==>
      derivations[j].record.nodeId != derivations[k].record.nodeId
  }

  ghost predicate DerivedNodesHaveOne(db: Db) {
    forall id :: id in db.nodes && DerivationBacked(db.nodes[id].body.kind) ==> HasDerivation(db, id)
  }

  ghost predicate DerivedEdgesEnterDerived(nodes: map<Id, Node>, edges: map<Id, Edge>) {
    forall id :: id in edges && edges[id].relation == DerivedFrom ==>
      edges[id].to in nodes && DerivationBacked(nodes[edges[id].to].body.kind)
  }

  ghost predicate DerivationsSound(db: Db) {
    && EachDerivationSound(db) && OneDerivationEach(db.derivations) && DerivedNodesHaveOne(db)
    && DerivedEdgesEnterDerived(db.nodes, db.edges) && Acyclic(db.edges)
  }

  ghost predicate Inv(db: Db) {
    && ProposalsKeyed(db.proposals) && NodesSound(db) && EdgesSound(db) && UniqueTriples(db.edges)
    && ManifestsSound(db) && DecisionsSound(db) && OneDecisionEach(db.decisions) && DerivationsSound(db)
  }
}
