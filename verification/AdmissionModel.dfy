/**
 Proposals, the rows an ordinary admission writes, and the mutation built from a
 proposal and an admission input. Hashes and JSON encodings are function parameters.
 */
module AdmissionModel {
  import opened Outcomes
  import opened Ordering
  import opened Evidence
  import opened Identity

  // ----- rows -----

  datatype Outcome = Pending | Admitted | Rejected | AuditOnly

  /** One resolved source span: the parts its raw-evidence id and the claim's id are made of, and its text. */
  datatype SourceRef = SourceRef(
    identity: seq<string>, encoded: seq<string>, file: Id, locator: string, quotedText: string, quotedHash: string)

  datatype SourceBinding = SourceSnapshot | RepositorySnapshot | Unsupported

  datatype Proposal = Proposal(
    id: Id, kind: string, attempt: string, statement: string, fingerprint: string, binding: SourceBinding,
    refs: seq<SourceRef>, sourceType: string, sourceLabel: string, originGroup: Id, origins: seq<Id>, extractor: string,
    outcome: Outcome, canonicalRef: Id)

  /** Everything of a node row except its id and its owner. */
  datatype Body = Body(
    kind: NodeKind, payload: Payload, provenance: Provenance, temporal: Temporal, integrity: Integrity)

  datatype Node = Node(id: Id, body: Body, origin: Id)

  datatype Edge = Edge(id: Id, from: Id, to: Id, relation: Relation, provenance: Provenance, origin: Id) {
    predicate SameBody(other: Edge) {
      from == other.from && to == other.to && relation == other.relation && provenance == other.provenance
    }

    predicate SameTriple(other: Edge) {
      from == other.from && to == other.to && relation == other.relation
    }
  }

  datatype DerivationRow = DerivationRow(record: Derivation, parentEdges: map<Id, Id>, origin: Id)

  datatype Decision = Decision(
    proposal: Id, outcome: Outcome, canonicalRef: Id, rawNodes: seq<Id>, edges: seq<Id>, decider: string,
    reason: string)

  datatype Materialization = Materialized | Reused

  datatype Role = CanonicalRef | RawNode | Supports | Derived

  datatype Binding = Binding(role: Role, position: nat, id: Id, how: Materialization)

  datatype MutationKind = SourceBacked | DerivedKind | CandidateKind

  datatype Manifest = Manifest(
    kind: MutationKind, proposal: Id, canonicalRef: Id, outcome: Outcome, nodes: seq<Binding>, edges: seq<Binding>)

  /** An independently reviewed relation's own authority. */
  datatype Receipt = Receipt(
    relation: Relation, version: string, edge: Id, from: Id, to: Id, origin: Id, request: Id, receiptId: Id)

  datatype Error =
    | InvalidInput | InvalidRecordId | UnsupportedAdmission | SourceIntegrity | NotFound | StateConflict
    | ReplayConflict | DerivationInvariant | CanonicalInvariant | SqlError

  function NodeKey(n: Node): string { n.id }
  function EdgeKey(e: Edge): string { e.id }

  /** The validator's key for an edge's ends and relation. */
  function TripleKey(e: Edge): string {
    e.from + [NUL] + e.to + [NUL] + RelationName(e.relation)
  }

  function RelationName(r: Relation): string {
    match r
    case SupportsClaim => "supports_claim"
    case Contradicts => "contradicts"
    case References => "references"
    case Supersedes => "supersedes"
    case Implements => "implements"
    case DerivedFrom => "derived_from"
  }

  // ----- input -----

  datatype DerivationInput = DerivationInput(parents: seq<Id>, methodName: string, producer: string, traceRef: string)

  datatype AdmissionInput = AdmissionInput(
    proposal: Id, decider: string, reason: string, derivation: Option<DerivationInput>,
    candidate: Option<DerivationInput>)

  const DEFAULT_DECIDER := "ahe-ingestion-admission-slice9"
  const CANDIDATE_REASON := "candidate hypothesis recorded" + " with complete canonical parent set"
  const DERIVED_REASON := "derived statement admitted" + " with complete canonical parent set"
  const SOURCE_REASON := "source-backed statement proposal admitted"

  function TrimDerivation(d: DerivationInput): DerivationInput {
    DerivationInput(d.parents, TrimSpace(d.methodName), TrimSpace(d.producer), TrimSpace(d.traceRef))
  }

  function TrimOption(d: Option<DerivationInput>): Option<DerivationInput> {
    if d.Some? then Some(TrimDerivation(d.value)) else None
  }

  /** The trimmed text, or the fallback when nothing is left. */
  function OrElse(s: string, fallback: string): string {
    if TrimSpace(s) == "" then fallback else TrimSpace(s)
  }

  function DefaultReason(input: AdmissionInput): string {
    if input.candidate.Some? then CANDIDATE_REASON else if input.derivation.Some? then DERIVED_REASON else SOURCE_REASON
  }

  function NormalizeInput(input: AdmissionInput): AdmissionInput {
    AdmissionInput(
      TrimSpace(input.proposal), OrElse(input.decider, DEFAULT_DECIDER), OrElse(input.reason, DefaultReason(input)),
      TrimOption(input.derivation), TrimOption(input.candidate))
  }

  /** Normalizing an input again changes nothing, so a replay may send either form. */
  lemma NormalizeIdempotent(input: AdmissionInput)
    ensures NormalizeInput(NormalizeInput(input)) == NormalizeInput(input)
  {
    TrimIdempotent(input.proposal);
    OrElseIdempotent(input.decider, DEFAULT_DECIDER);
    OrElseIdempotent(input.reason, DefaultReason(input));
    TrimOptionIdempotent(input.derivation);
    TrimOptionIdempotent(input.candidate);
    DefaultsTight();
  }

  lemma OrElseIdempotent(s: string, fallback: string)
    ensures TrimSpace(fallback) == fallback ==> OrElse(OrElse(s, fallback), fallback) == OrElse(s, fallback)
  {
    TrimIdempotent(s);
  }

  lemma DefaultsTight()
    ensures TrimSpace(DEFAULT_DECIDER) == DEFAULT_DECIDER
    ensures TrimSpace(CANDIDATE_REASON) == CANDIDATE_REASON
    ensures TrimSpace(DERIVED_REASON) == DERIVED_REASON
    ensures TrimSpace(SOURCE_REASON) == SOURCE_REASON
  {
    TrimTight(DEFAULT_DECIDER);
    TrimTight(CANDIDATE_REASON);
    TrimTight(DERIVED_REASON);
    TrimTight(SOURCE_REASON);
  }

  lemma TrimTight(s: string)
    requires s != "" && !IsSpace(s[0]) && !IsSpace(s[|s| - 1])
    ensures TrimSpace(s) == s
  {
    TrimFacts(s);
  }

  lemma TrimOptionIdempotent(d: Option<DerivationInput>)
    ensures TrimOption(TrimOption(d)) == TrimOption(d)
  {
    if d.Some? {
      TrimIdempotent(d.value.methodName);
      TrimIdempotent(d.value.producer);
      TrimIdempotent(d.value.traceRef);
    }
  }

  // ----- the mutation -----

  /** Stable ids, encoding and digests, of which nothing is assumed. */
  datatype Codec = Codec(
    stableId: (string, seq<string>) -> Id, encodeRefs: seq<seq<string>> -> string, digest: Payload -> string,
    decision: (Id, Id) -> Id)

  datatype Mutation = Mutation(
    proposal: Id, canonicalRef: Id, decision: Id, nodes: seq<Node>, edges: seq<Edge>, rawNodes: seq<Id>,
    edgeIds: seq<Id>,
    derivation: Option<Derivation>, parentEdges: map<Id, Id>)

  const NO_DERIVATION: map<Id, Id> := map[]

  function KindName(k: NodeKind): string {
    match k
    case RawEvidence => "raw_evidence"
    case SourceClaim => "source_claim"
    case DerivedClaim => "derived_claim"
    case Candidate => "candidate"
  }

  function EdgeIdOf(codec: Codec, from: Id, to: Id, relation: Relation): Id {
    codec.stableId("canon-edge", [from, to, RelationName(relation)])
  }

  function NewNode(codec: Codec, id: Id, kind: NodeKind, payload: Payload, provenance: Provenance, origin: Id): Node {
    Node(id,
         Body(kind, payload, provenance,
              Temporal(codec.stableId("temporal", [id]), "unknown"),
              Integrity(codec.stableId("integrity", [payload.id]), codec.digest(payload))),
         origin)
  }

  function Joined(parts: seq<string>): string {
    if parts == [] then "" else if |parts| == 1 then parts[0] else parts[0] + "\n" + Joined(parts[1..])
  }

  function QuotedText(ref: SourceRef): string { ref.quotedText }
  function Locator(ref: SourceRef): string { ref.locator }
  function RefEncoding(ref: SourceRef): seq<string> { ref.encoded }

  /** Locators, each file named once before its first locator when the binding is a repository. */
  function RefOrigins(refs: seq<SourceRef>, files: bool, seen: set<Id>): seq<Id> {
    if refs == [] then []
    else if files && refs[0].file !in seen then
      [refs[0].file, refs[0].locator] + RefOrigins(refs[1..], files, seen + {refs[0].file})
    else [refs[0].locator] + RefOrigins(refs[1..], files, seen)
  }

  function OriginRefs(p: Proposal): seq<Id> {
    p.origins + RefOrigins(p.refs, p.binding.RepositorySnapshot?, {})
  }

  function AdmissionProvenance(codec: Codec, p: Proposal, id: Id, methodName: string, traceRef: string): Provenance {
    Provenance(codec.stableId("provenance", [id]), OriginRefs(p), p.originGroup, p.extractor, methodName, "v1",
               traceRef, "")
  }

  function ClaimNode(codec: Codec, p: Proposal): Node {
    var id := codec.stableId("canon-node",
                             [KindName(SourceClaim), p.statement, codec.encodeRefs(Mapped(p.refs, RefEncoding))]);
    NewNode(codec, id, SourceClaim,
            Payload(codec.stableId("payload", [id]), p.sourceType, "source claim", p.sourceLabel,
                    Joined(Mapped(p.refs, QuotedText)), Joined(Mapped(p.refs, Locator)), p.statement, ""),
            AdmissionProvenance(codec, p, id, "proposal_admission", p.fingerprint), p.id)
  }

  function RawEvidenceNode(codec: Codec, p: Proposal, ref: SourceRef): Node {
    var id := codec.stableId("canon-node", [KindName(RawEvidence)] + ref.identity);
    NewNode(codec, id, RawEvidence,
            Payload(codec.stableId("payload", [id]), p.sourceType, "raw evidence span", p.sourceLabel,
                    ref.quotedText, ref.locator, "", ""),
            AdmissionProvenance(codec, p, id, "source_span_observation", ref.quotedHash), p.id)
  }

  function SupportsEdge(codec: Codec, p: Proposal, from: Id, to: Id): Edge {
    var id := EdgeIdOf(codec, from, to, SupportsClaim);
    Edge(id, from, to, SupportsClaim, AdmissionProvenance(codec, p, id, "proposal_admission_edge", p.fingerprint), p.id)
  }

  function RawNodes(codec: Codec, p: Proposal): (nodes: seq<Node>)
    ensures |nodes| == |p.refs|
  {
    seq(|p.refs|, i requires 0 <= i < |p.refs| => RawEvidenceNode(codec, p, p.refs[i]))
  }

  function SupportsEdges(codec: Codec, p: Proposal): (edges: seq<Edge>)
    ensures |edges| == |p.refs|
  {
    seq(|p.refs|, i requires 0 <= i < |p.refs| =>
      SupportsEdge(codec, p, RawEvidenceNode(codec, p, p.refs[i]).id, ClaimNode(codec, p).id))
  }

  function AssembleSource(
    codec: Codec, p: Proposal, claim: Node, raws: seq<Node>, edges: seq<Edge>, rawIds: seq<Id>,
    edgeIds: seq<Id>): Mutation
  {
    Mutation(p.id, claim.id, codec.decision(p.id, claim.id), [claim] + raws, edges, rawIds, edgeIds, None,
             NO_DERIVATION)
  }

  function SourceMutation(codec: Codec, p: Proposal): Mutation {
    var raws, edges := RawNodes(codec, p), SupportsEdges(codec, p);
    AssembleSource(codec, p, ClaimNode(codec, p), raws, edges, Mapped(raws, NodeKey), Mapped(edges, EdgeKey))
  }

  function DerivedNodeId(codec: Codec, p: Proposal, kind: NodeKind, parents: seq<Id>, d: DerivationInput): Id {
    codec.stableId("canon-node",
                   IdentityOf(p, kind, parents, d).Parts())
  }

  function DerivedEdge(codec: Codec, p: Proposal, nodeId: Id, parents: seq<Id>, d: DerivationInput, parent: Id): Edge {
    var id := EdgeIdOf(codec, parent, nodeId, DerivedFrom);
    Edge(id, parent, nodeId, DerivedFrom,
         Provenance(codec.stableId("provenance", [id]), [parent, nodeId],
                    codec.stableId("origin-group", [JoinNul(parents)]), d.producer, d.methodName, "v1",
                    d.traceRef, ""),
         p.id)
  }

  function DerivedEdges(codec: Codec, p: Proposal, nodeId: Id, parents: seq<Id>, d: DerivationInput): (edges: seq<Edge>)
    ensures |edges| == |parents|
  {
    seq(|parents|, i requires 0 <= i < |parents| => DerivedEdge(codec, p, nodeId, parents, d, parents[i]))
  }

  function ParentEdges(edges: seq<Edge>): map<Id, Id> {
    if edges == [] then NO_DERIVATION
    else ParentEdges(edges[..|edges| - 1])[edges[|edges| - 1].from := edges[|edges| - 1].id]
  }

  function DerivedNode(codec: Codec, p: Proposal, kind: NodeKind, parents: seq<Id>, d: DerivationInput): Node {
    var id := DerivedNodeId(codec, p, kind, parents, d);
    var candidate := kind == Candidate;
    NewNode(codec, id, kind,
            Payload(codec.stableId("payload", [id]), if candidate then "candidate" else "derived",
                    if candidate then "derived candidate" else "derived claim",
                    if candidate then "ahe:candidate" else "ahe:derivation", "", "", p.statement, ""),
            Provenance(codec.stableId("provenance", [id]), parents,
                       codec.stableId("origin-group", [JoinNul(parents)]), d.producer, d.methodName, "v1",
                       d.traceRef, ""),
            p.id)
  }

  function DerivedRecord(codec: Codec, node: Node, parents: seq<Id>, d: DerivationInput): Derivation {
    Derivation("", codec.stableId("derivation", [node.id, JoinNul(parents), d.methodName, d.producer, d.traceRef]),
               node.id, parents, d.methodName, d.producer, d.traceRef, node.body.provenance.id)
  }

  function AssembleDerived(
    codec: Codec, p: Proposal, node: Node, parents: seq<Id>, d: DerivationInput,
    edges: seq<Edge>, edgeIds: seq<Id>, parentEdges: map<Id, Id>): Mutation
  {
    Mutation(p.id, node.id, codec.decision(p.id, node.id), [node], edges, [], edgeIds,
             Some(DerivedRecord(codec, node, parents, d)), parentEdges)
  }

  function DerivedMutation(codec: Codec, p: Proposal, kind: NodeKind, parents: seq<Id>, d: DerivationInput): Mutation {
    var node := DerivedNode(codec, p, kind, parents, d);
    var edges := DerivedEdges(codec, p, node.id, parents, d);
    AssembleDerived(codec, p, node, parents, d, edges, Mapped(edges, EdgeKey), ParentEdges(edges))
  }

  /** Which inputs can be built at all. */
  predicate Buildable(p: Proposal, input: AdmissionInput) {
    if input.derivation.Some? && input.candidate.Some? then false
    else if input.candidate.Some? then DerivationBuildable(input.candidate.value)
    else if input.derivation.Some? then DerivationBuildable(input.derivation.value)
    else p.refs != [] && !p.binding.Unsupported?
  }

  predicate DerivationBuildable(d: DerivationInput) {
    ParentsAcceptable(d.parents) && d.methodName != "" && d.producer != "" && d.traceRef != ""
  }

  function Build(codec: Codec, p: Proposal, input: AdmissionInput): (m: Mutation)
    requires Buildable(p, input)
  {
    if input.candidate.Some? then
      DerivedMutation(codec, p, Candidate, SortBy(Trimmed(input.candidate.value.parents), SelfKey),
                      input.candidate.value)
    else if input.derivation.Some? then
      DerivedMutation(codec, p, DerivedClaim, SortBy(Trimmed(input.derivation.value.parents), SelfKey),
                      input.derivation.value)
    else SourceMutation(codec, p)
  }

  /** The codec the program uses, over any hash. */
  function StandardCodec(
    hash: string -> string, encodeRefs: seq<seq<string>> -> string, digest: Payload -> string,
    decision: (Id, Id) -> Id): Codec
  {
    Codec((prefix, parts) => StableCanonicalId(hash, prefix, parts), encodeRefs, digest, decision)
  }

  function IdentityOf(p: Proposal, kind: NodeKind, parents: seq<Id>, d: DerivationInput): DerivedIdentity {
    DerivedIdentity(KindName(kind), p.id, p.statement, parents, d.methodName, d.producer, d.traceRef)
  }

  /** With a collision-free hash a derivation-backed node's id says what it was derived from and how. */
  lemma DerivedIdsIdentify(
    hash: string -> string, encodeRefs: seq<seq<string>> -> string, digest: Payload -> string, decision: (Id, Id) -> Id,
    p: Proposal, q: Proposal, kind: NodeKind, kind': NodeKind,
    parents: seq<Id>, parents': seq<Id>, d: DerivationInput, d': DerivationInput)
    requires forall s, t :: hash(s) == hash(t) ==> s == t
    requires var i, i' := IdentityOf(p, kind, parents, d), IdentityOf(q, kind', parents', d');
             i.Normal() && i'.Normal() && i.NulFreeFields() && i'.NulFreeFields()
    ensures var codec := StandardCodec(hash, encodeRefs, digest, decision);
            DerivedNodeId(codec, p, kind, parents, d) == DerivedNodeId(codec, q, kind', parents', d') <==>
            IdentityOf(p, kind, parents, d).SameUpToMargins(IdentityOf(q, kind', parents', d'))
  {
    var i, i' := IdentityOf(p, kind, parents, d), IdentityOf(q, kind', parents', d');
    FramingInjective(i, i');
    StableIdsAgree(hash, "canon-node", i.Parts(), i'.Parts());
  }

  lemma StableIdsAgree(hash: string -> string, prefix: string, parts: seq<string>, parts': seq<string>)
    requires forall s, t :: hash(s) == hash(t) ==> s == t
    ensures StableCanonicalId(hash, prefix, parts) == StableCanonicalId(hash, prefix, parts') <==>
            Frame(parts) == Frame(parts')
  {
    var head := TrimSpace(prefix) + ":";
    var a, b := StableCanonicalId(hash, prefix, parts), StableCanonicalId(hash, prefix, parts');
    assert a[|head|..] == hash(Frame(parts)) && b[|head|..] == hash(Frame(parts'));
  }

  // ----- building it step by step -----

  method BuildDerivedEdges(codec: Codec, p: Proposal, nodeId: Id, parents: seq<Id>, d: DerivationInput)
    returns (edges: seq<Edge>, edgeIds: seq<Id>, parentEdges: map<Id, Id>)
    ensures edges == DerivedEdges(codec, p, nodeId, parents, d)
    ensures edgeIds == Mapped(edges, EdgeKey) && parentEdges == ParentEdges(edges)
  {
    edges, edgeIds, parentEdges := [], [], NO_DERIVATION;
    ghost var all := DerivedEdges(codec, p, nodeId, parents, d);
    for i := 0 to |parents|
      invariant edges == all[..i] && edgeIds == Mapped(edges, EdgeKey) && parentEdges == ParentEdges(edges)
    {
      var edge := DerivedEdge(codec, p, nodeId, parents, d, parents[i]);
      assert edge.from == parents[i];
      assert all[..i + 1] == all[..i] + [edge];
      assert (edges + [edge])[..i] == edges;
      edges := edges + [edge];
      edgeIds := edgeIds + [edge.id];
      parentEdges := parentEdges[parents[i] := edge.id];
      assert edgeIds == Mapped(edges, EdgeKey);
    }
    assert all[..|parents|] == all;
  }

  method BuildDerivationBacked(codec: Codec, p: Proposal, kind: NodeKind, d: DerivationInput)
    returns (r: Result<Mutation, Error>)
    ensures r.Ok? <==> DerivationBuildable(d)
    ensures r.Ok? ==> r.value == DerivedMutation(codec, p, kind, SortBy(Trimmed(d.parents), SelfKey), d)
  {
    var normalized := NormalizeDerivationParents(d.parents);
    if normalized.Err? {
      return Err(if normalized.error.BadPrefix? then InvalidRecordId else InvalidInput);
    }
    if d.methodName == "" || d.producer == "" || d.traceRef == "" {
      return Err(InvalidInput);
    }
    var node := DerivedNode(codec, p, kind, normalized.value, d);
    var edges, edgeIds, parentEdges := BuildDerivedEdges(codec, p, node.id, normalized.value, d);
    return Ok(AssembleDerived(codec, p, node, normalized.value, d, edges, edgeIds, parentEdges));
  }

  method BuildSourceRows(codec: Codec, p: Proposal, claimId: Id)
    returns (raws: seq<Node>, edges: seq<Edge>, rawIds: seq<Id>, edgeIds: seq<Id>)
    requires claimId == ClaimNode(codec, p).id
    ensures raws == RawNodes(codec, p) && edges == SupportsEdges(codec, p)
    ensures rawIds == Mapped(raws, NodeKey) && edgeIds == Mapped(edges, EdgeKey)
  {
    raws, edges, rawIds, edgeIds := [], [], [], [];
    for i := 0 to |p.refs|
      invariant |raws| == |edges| == i
      invariant forall k :: 0 <= k < i ==> raws[k] == RawEvidenceNode(codec, p, p.refs[k])
      invariant forall k :: 0 <= k < i ==> edges[k] == SupportsEdge(codec, p, raws[k].id, claimId)
      invariant rawIds == Mapped(raws, NodeKey) && edgeIds == Mapped(edges, EdgeKey)
    {
      var raw := RawEvidenceNode(codec, p, p.refs[i]);
      var edge := SupportsEdge(codec, p, raw.id, claimId);
      MappedAppend(raws, raw, NodeKey);
      MappedAppend(edges, edge, EdgeKey);
      raws, edges, rawIds, edgeIds := raws + [raw], edges + [edge], rawIds + [NodeKey(raw)], edgeIds + [EdgeKey(edge)];
    }
    assert raws == RawNodes(codec, p);
    assert edges == SupportsEdges(codec, p);
  }

  lemma MappedAppend<T>(s: seq<T>, x: T, key: T -> string)
    ensures Mapped(s + [x], key) == Mapped(s, key) + [key(x)]
  {
  }

  method BuildMutation(codec: Codec, p: Proposal, input: AdmissionInput) returns (r: Result<Mutation, Error>)
    ensures r.Ok? <==> Buildable(p, input)
    ensures r.Ok? ==> r.value == Build(codec, p, input)
  {
    if input.derivation.Some? && input.candidate.Some? {
      return Err(InvalidInput);
    }
    if input.candidate.Some? {
      r := BuildDerivationBacked(codec, p, Candidate, input.candidate.value);
      return;
    }
    if input.derivation.Some? {
      r := BuildDerivationBacked(codec, p, DerivedClaim, input.derivation.value);
      return;
    }
    if |p.refs| == 0 {
      return Err(UnsupportedAdmission);
    }
    if p.binding.Unsupported? {
      return Err(SourceIntegrity);
    }
    var claim := ClaimNode(codec, p);
    var raws, edges, rawIds, edgeIds := BuildSourceRows(codec, p, claim.id);
    return Ok(AssembleSource(codec, p, claim, raws, edges, rawIds, edgeIds));
  }

  // ----- what every built mutation looks like -----

  predicate WellFormed(m: Mutation) {
    && m.nodes != [] && m.nodes[0].id == m.canonicalRef
    && (forall i :: 0 <= i < |m.nodes| ==> m.nodes[i].origin == m.proposal)
    && (forall i :: 0 <= i < |m.edges| ==> m.edges[i].origin == m.proposal && m.edges[i].to == m.canonicalRef)
    && if m.derivation.Some? then
         && |m.nodes| == 1 && (m.nodes[0].body.kind == DerivedClaim || m.nodes[0].body.kind == Candidate)
         && m.derivation.value.nodeId == m.canonicalRef && m.parentEdges == ParentEdges(m.edges)
         && m.derivation.value.provenanceRef == m.nodes[0].body.provenance.id
         && |m.edges| == |m.derivation.value.parents|
         && NoDuplicates(m.derivation.value.parents)
         && (forall i :: 0 <= i < |m.edges| ==>
               m.edges[i].relation == DerivedFrom && m.edges[i].from == m.derivation.value.parents[i])
       else
         && m.nodes[0].body.kind == SourceClaim && |m.nodes| == |m.edges| + 1
         && (forall i :: 1 <= i < |m.nodes| ==> m.nodes[i].body.kind == RawEvidence)
         && (forall i :: 0 <= i < |m.edges| ==>
               m.edges[i].relation == SupportsClaim && m.edges[i].from == m.nodes[i + 1].id)
  }

  lemma SourceWellFormed(codec: Codec, p: Proposal)
    ensures WellFormed(SourceMutation(codec, p))
  {
  }

  lemma DerivedWellFormed(codec: Codec, p: Proposal, kind: NodeKind, parents: seq<Id>, d: DerivationInput)
    requires kind == DerivedClaim || kind == Candidate
    requires NoDuplicates(parents)
    ensures WellFormed(DerivedMutation(codec, p, kind, parents, d))
  {
  }

  /** The built rows have the shape the derivation checks ask for, so those checks cannot fail on them. */
  lemma BuiltWellFormed(codec: Codec, p: Proposal, input: AdmissionInput)
    requires Buildable(p, input)
    ensures WellFormed(Build(codec, p, input)) && Build(codec, p, input).proposal == p.id
  {
    if input.candidate.Some? {
      SortedParents(input.candidate.value.parents);
      DerivedWellFormed(codec, p, Candidate, SortBy(Trimmed(input.candidate.value.parents), SelfKey),
                        input.candidate.value);
    } else if input.derivation.Some? {
      SortedParents(input.derivation.value.parents);
      DerivedWellFormed(codec, p, DerivedClaim, SortBy(Trimmed(input.derivation.value.parents), SelfKey),
                        input.derivation.value);
    } else {
      SourceWellFormed(codec, p);
    }
  }

  lemma NodeProvenanceName(
    codec: Codec, hash: string -> string, p: Proposal, kind: NodeKind, parents: seq<Id>, d: DerivationInput)
    requires forall prefix, parts :: codec.stableId(prefix, parts) == StableCanonicalId(hash, prefix, parts)
    ensures var node := DerivedNode(codec, p, kind, parents, d);
            HasNodePrefix(node.id) && node.body.provenance.id == ProvenanceIdOf(hash, node.id)
  {
    TrimTight("canon-node");
  }

  lemma EdgeProvenanceName(
    codec: Codec, hash: string -> string, p: Proposal, nodeId: Id, parents: seq<Id>, d: DerivationInput, parent: Id)
    requires forall prefix, parts :: codec.stableId(prefix, parts) == StableCanonicalId(hash, prefix, parts)
    ensures var edge := DerivedEdge(codec, p, nodeId, parents, d, parent);
            HasEdgePrefix(edge.id) && edge.provenance.id == ProvenanceIdOf(hash, edge.id)
  {
    TrimTight("canon-edge");
  }

  /** A derivation and its edges name provenance records of their own, made from the node's id and from the edges'. */
  lemma DerivedProvenanceNames(
    hash: string -> string, encodeRefs: seq<seq<string>> -> string, digest: Payload -> string, decision: (Id, Id) -> Id,
    p: Proposal, kind: NodeKind, parents: seq<Id>, d: DerivationInput)
    ensures var m := DerivedMutation(StandardCodec(hash, encodeRefs, digest, decision), p, kind, parents, d);
            && HasNodePrefix(m.derivation.value.nodeId)
            && m.derivation.value.provenanceRef == ProvenanceIdOf(hash, m.derivation.value.nodeId)
            && forall i :: 0 <= i < |m.edges| ==>
                 HasEdgePrefix(m.edges[i].id) && m.edges[i].provenance.id == ProvenanceIdOf(hash, m.edges[i].id)
  {
    var codec := StandardCodec(hash, encodeRefs, digest, decision);
    var m := DerivedMutation(codec, p, kind, parents, d);
    NodeProvenanceName(codec, hash, p, kind, parents, d);
    forall i | 0 <= i < |m.edges|
      ensures HasEdgePrefix(m.edges[i].id) && m.edges[i].provenance.id == ProvenanceIdOf(hash, m.edges[i].id)
    {
      EdgeProvenanceName(codec, hash, p, m.canonicalRef, parents, d, parents[i]);
    }
  }

  /** Without hash collisions a derivation never shares its provenance record with an edge, whoever wrote it. */
  lemma WriterProvenanceSeparate(
    hash: string -> string, encodeRefs: seq<seq<string>> -> string, digest: Payload -> string, decision: (Id, Id) -> Id,
    p: Proposal, q: Proposal, kind: NodeKind, kind': NodeKind, parents: seq<Id>, parents': seq<Id>,
    d: DerivationInput, d': DerivationInput, i: nat)
    requires forall s, t :: hash(s) == hash(t) ==> s == t
    requires i < |parents'|
    ensures var codec := StandardCodec(hash, encodeRefs, digest, decision);
            var m, m' := DerivedMutation(codec, p, kind, parents, d), DerivedMutation(codec, q, kind', parents', d');
            m.derivation.value.provenanceRef != m'.edges[i].provenance.id
  {
    var codec := StandardCodec(hash, encodeRefs, digest, decision);
    DerivedProvenanceNames(hash, encodeRefs, digest, decision, p, kind, parents, d);
    DerivedProvenanceNames(hash, encodeRefs, digest, decision, q, kind', parents', d');
    ProvenanceIdsDiffer(hash, DerivedMutation(codec, p, kind, parents, d).derivation.value.nodeId,
                        DerivedMutation(codec, q, kind', parents', d').edges[i].id);
  }

  lemma SortedParents(values: seq<Id>)
    requires ParentsAcceptable(values)
    ensures NoDuplicates(SortBy(Trimmed(values), SelfKey))
    ensures SortBy(Trimmed(values), SelfKey) != []
  {
    var s := Trimmed(values);
    SortFacts(s, SelfKey);
    DistinctKeysPermuted(s, SortBy(s, SelfKey), SelfKey);
    var t := SortBy(s, SelfKey);
    forall i, j | 0 <= i < j < |t|
      ensures t[i] != t[j]
    {
      assert SelfKey(t[i]) != SelfKey(t[j]);
    }
  }

  lemma {:induction false} ParentEdgesFacts(edges: seq<Edge>)
    requires forall i, j :: 0 <= i < j < |edges| ==> edges[i].from != edges[j].from
    ensures ParentEdges(edges).Keys == set i | 0 <= i < |edges| :: edges[i].from
    ensures forall i :: 0 <= i < |edges| ==>
            edges[i].from in ParentEdges(edges) && ParentEdges(edges)[edges[i].from] == edges[i].id
  {
    if edges != [] {
      var front := edges[..|edges| - 1];
      ParentEdgesFacts(front);
      forall i | 0 <= i < |edges|
        ensures edges[i].from in ParentEdges(edges) && ParentEdges(edges)[edges[i].from] == edges[i].id
      {
        if i < |front| {
          assert front[i] == edges[i];
        }
      }
      forall x | x in ParentEdges(edges)
        ensures exists i :: 0 <= i < |edges| && edges[i].from == x
      {
        if x in ParentEdges(front) {
          var i :| 0 <= i < |front| && front[i].from == x;
          assert edges[i].from == x;
        }
      }
    }
  }
}
