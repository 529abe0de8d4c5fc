/**
 What the bounded read may rely on: after every run of admissions over complete texts the
 stored rows have complete records under ids of their own, and derivations, derived nodes
 and derived_from edges belong together.
 */
module ReadableHistory {
  import opened Outcomes
  import opened Ordering
  import opened Evidence
  import opened Identity
  import opened AdmissionModel
  import opened AdmissionSpec
  import opened AdmissionInvariant
  import opened AdmissionReplay
  import BR = BoundedRead
  import RA = ReadAssembly

  // ----- ids -----

  /** The program's codec, apart from what a read does not see. */
  ghost predicate Standard(codec: Codec, hash: string -> string) {
    && (forall prefix, parts :: codec.stableId(prefix, parts) == StableCanonicalId(hash, prefix, parts))
    && HexHash(hash) && CollisionFree(hash)
  }

  predicate WellNamed(id: Id, prefix: string) {
    prefix <= id && |prefix| < |id| && Tight(id) && NulFree(id)
  }

  lemma HexText(hash: string -> string, s: string)
    requires HexHash(hash)
    ensures hash(s) != "" && Tight(hash(s)) && NulFree(hash(s)) && !Blank(hash(s))
  {
    var h := hash(s);
    assert HexDigit(h[0]) && HexDigit(h[|h| - 1]);
    assert h[0] in h && !IsSpace(h[0]);
  }

  lemma StableShape(hash: string -> string, prefix: string, parts: seq<string>)
    requires HexHash(hash) && prefix != "" && Tight(prefix) && NulFree(prefix)
    ensures var id := StableCanonicalId(hash, prefix, parts);
            WellNamed(id, prefix + ":") && !Blank(id)
  {
    TrimFacts(prefix);
    HexText(hash, Frame(parts));
    var id := StableCanonicalId(hash, prefix, parts);
    assert id == prefix + ":" + hash(Frame(parts));
    assert id[0] == prefix[0] && id[0] in id;
    assert id[|id| - 1] == hash(Frame(parts))[|hash(Frame(parts))| - 1];
  }

  /** Different ids have different records of one kind. */
  lemma StableInjective(hash: string -> string, prefix: string, x: Id, y: Id)
    requires CollisionFree(hash) && Tight(x) && Tight(y)
    requires StableCanonicalId(hash, prefix, [x]) == StableCanonicalId(hash, prefix, [y])
    ensures x == y
  {
    StableIdsAgree(hash, prefix, [x], [y]);
    TrimFacts(x);
    TrimFacts(y);
    assert Frame([x]) == x + [NUL] && Frame([y]) == y + [NUL];
    assert Frame([x])[..|Frame([x])| - 1] == x && Frame([y])[..|Frame([y])| - 1] == y;
  }

  // ----- rows as the writers leave them -----

  ghost predicate NodeGood(hash: string -> string, digest: Payload -> string, n: Node) {
    && WellNamed(n.id, NODE_PREFIX)
    && n.body.payload.Complete() && n.body.provenance.Complete() && n.body.temporal.Complete()
    && n.body.integrity.Complete()
    && n.body.payload.id == StableCanonicalId(hash, "payload", [n.id])
    && n.body.provenance.id == ProvenanceIdOf(hash, n.id)
    && n.body.temporal.id == StableCanonicalId(hash, "temporal", [n.id])
    && n.body.integrity.id == StableCanonicalId(hash, "integrity", [n.body.payload.id])
    && n.body.integrity.digest == digest(n.body.payload)
  }

  /** An ordinary edge's record is named by hash, a reviewed relation's by the edge itself. */
  ghost predicate EdgeGood(hash: string -> string, e: Edge) {
    && WellNamed(e.id, EDGE_PREFIX) && e.provenance.Complete()
    && (e.provenance.id == ProvenanceIdOf(hash, e.id) || e.provenance.id == "provenance:" + e.id)
  }

  /** A derivation names its node's provenance and one stored edge for each of its parents. */
  ghost predicate RowLinked(db: Db, k: Id)
    requires k in db.derivations
  {
    var row := db.derivations[k];
    && RA.HeadSound(row.record) && row.record.parents != [] && row.record.nodeId in db.nodes
    && db.nodes[row.record.nodeId].body.provenance.id == row.record.provenanceRef
    && forall p :: p in row.record.parents ==> LinkedBy(db, row, p)
  }

  ghost predicate LinkedBy(db: Db, row: DerivationRow, p: Id) {
    && p in row.parentEdges && row.parentEdges[p] in db.edges
    && var e := db.edges[row.parentEdges[p]];
       e.id == row.parentEdges[p] && e.from == p && e.to == row.record.nodeId && e.relation == DerivedFrom
  }

  ghost predicate GoodProposals(proposals: map<Id, Proposal>) {
    forall p {:trigger GoodProposal(proposals[p])} :: p in proposals ==> GoodProposal(proposals[p])
  }

  ghost predicate GoodNodes(hash: string -> string, digest: Payload -> string, nodes: map<Id, Node>) {
    forall id {:trigger NodeGood(hash, digest, nodes[id])} :: id in nodes ==> NodeGood(hash, digest, nodes[id])
  }

  ghost predicate GoodEdges(hash: string -> string, edges: map<Id, Edge>) {
    forall id {:trigger EdgeGood(hash, edges[id])} :: id in edges ==> EdgeGood(hash, edges[id])
  }

  ghost predicate RowsLinked(db: Db) {
    forall k {:trigger RowLinked(db, k)} :: k in db.derivations ==> RowLinked(db, k)
  }

  ghost predicate Good(hash: string -> string, digest: Payload -> string, db: Db) {
    GoodProposals(db.proposals) && GoodNodes(hash, digest, db.nodes) && GoodEdges(hash, db.edges) && RowsLinked(db)
  }

  // ----- complete texts -----

  predicate GoodRef(ref: SourceRef) {
    !Blank(ref.file) && !Blank(ref.locator) && !Blank(ref.quotedHash)
  }

  predicate GoodProposal(p: Proposal) {
    && !Blank(p.id) && !Blank(p.sourceType) && !Blank(p.sourceLabel) && !Blank(p.originGroup) && !Blank(p.extractor)
    && !Blank(p.fingerprint) && (forall o :: o in p.origins ==> !Blank(o)) && (forall r :: r in p.refs ==> GoodRef(r))
  }

  predicate GoodDerivation(d: DerivationInput) {
    !Blank(d.methodName) && !Blank(d.producer) && !Blank(d.traceRef)
  }

  predicate GoodInput(input: AdmissionInput) {
    && (input.derivation.Some? ==> GoodDerivation(input.derivation.value))
    && (input.candidate.Some? ==> GoodDerivation(input.candidate.value))
  }

  /** The writers check their texts before they write. */
  predicate GoodStep(step: Step) {
    match step
    case Submit(p) => GoodProposal(p)
    case Admit(input) => GoodInput(input)
    case Dispose(_, _, _, _, _) => true
    case Attach(e, r) => WellNamed(e.id, EDGE_PREFIX) && !Blank(r.request) && !Blank(r.version) && !Blank(r.receiptId)
  }

  // ----- built rows are good -----

  lemma {:induction false} GoodOrigins(refs: seq<SourceRef>, files: bool, seen: set<Id>)
    requires forall r :: r in refs ==> GoodRef(r)
    ensures forall o :: o in RefOrigins(refs, files, seen) ==> !Blank(o)
    ensures refs != [] ==> RefOrigins(refs, files, seen) != []
  {
    if refs != [] {
      assert refs[0] in refs && GoodRef(refs[0]);
      GoodOrigins(refs[1..], files, if files && refs[0].file !in seen then seen + {refs[0].file} else seen);
    }
  }

  lemma NotBlankText(s: string)
    requires s != "" && !IsSpace(s[0])
    ensures !Blank(s)
  {
    assert s[0] in s;
  }

  lemma AdmissionProvenanceGood(
    codec: Codec, hash: string -> string, p: Proposal, id: Id, methodName: string, traceRef: string)
    requires Standard(codec, hash) && GoodProposal(p) && p.refs != [] && !Blank(methodName) && !Blank(traceRef)
    ensures var r := AdmissionProvenance(codec, p, id, methodName, traceRef);
            r.Complete() && r.id == ProvenanceIdOf(hash, id)
  {
    GoodOrigins(p.refs, p.binding.RepositorySnapshot?, {});
    StableShape(hash, "provenance", [id]);
    NotBlankText("v1");
  }

  lemma NewNodeGood(
    codec: Codec, hash: string -> string, parts: seq<string>, kind: NodeKind, payload: Payload, provenance: Provenance,
    origin: Id)
    requires Standard(codec, hash)
    requires var id := codec.stableId("canon-node", parts);
             && payload.id == codec.stableId("payload", [id]) && payload.Complete()
             && provenance.id == ProvenanceIdOf(hash, id) && provenance.Complete()
    ensures NodeGood(hash, codec.digest,
                     NewNode(codec, codec.stableId("canon-node", parts), kind, payload, provenance, origin))
  {
    var id := codec.stableId("canon-node", parts);
    NodeIdShape(hash, parts);
    RestComplete(codec, hash, id, payload.id, "unknown", codec.digest(payload));
  }

  lemma RestComplete(codec: Codec, hash: string -> string, id: Id, payload: Id, body: string, digest: string)
    requires Standard(codec, hash)
    ensures Temporal(codec.stableId("temporal", [id]), body).Complete()
    ensures Integrity(codec.stableId("integrity", [payload]), digest).Complete()
  {
    TemporalShape(hash, id);
    IntegrityShape(hash, payload);
  }

  lemma NodeIdShape(hash: string -> string, parts: seq<string>)
    requires HexHash(hash)
    ensures WellNamed(StableCanonicalId(hash, "canon-node", parts), NODE_PREFIX)
  {
    StableShape(hash, "canon-node", parts);
    assert "canon-node" + ":" == NODE_PREFIX;
  }

  lemma TemporalShape(hash: string -> string, id: Id)
    requires HexHash(hash)
    ensures !Blank(StableCanonicalId(hash, "temporal", [id]))
  {
    StableShape(hash, "temporal", [id]);
  }

  lemma IntegrityShape(hash: string -> string, id: Id)
    requires HexHash(hash)
    ensures !Blank(StableCanonicalId(hash, "integrity", [id]))
  {
    StableShape(hash, "integrity", [id]);
  }

  lemma PayloadGood(codec: Codec, hash: string -> string, id: Id, payload: Payload)
    requires Standard(codec, hash) && payload.id == codec.stableId("payload", [id])
    requires !Blank(payload.sourceType) && !Blank(payload.title) && !Blank(payload.source)
    ensures payload.Complete()
  {
    StableShape(hash, "payload", [id]);
  }

  lemma ClaimGood(codec: Codec, hash: string -> string, p: Proposal)
    requires Standard(codec, hash) && GoodProposal(p) && p.refs != []
    ensures NodeGood(hash, codec.digest, ClaimNode(codec, p))
  {
    var parts := [KindName(SourceClaim), p.statement, codec.encodeRefs(Mapped(p.refs, RefEncoding))];
    var n := ClaimNode(codec, p);
    NotBlankText("source claim");
    NotBlankText("proposal_admission");
    PayloadGood(codec, hash, n.id, n.body.payload);
    AdmissionProvenanceGood(codec, hash, p, n.id, "proposal_admission", p.fingerprint);
    NewNodeGood(codec, hash, parts, SourceClaim, n.body.payload, n.body.provenance, p.id);
  }

  lemma RawGood(codec: Codec, hash: string -> string, p: Proposal, ref: SourceRef)
    requires Standard(codec, hash) && GoodProposal(p) && ref in p.refs
    ensures NodeGood(hash, codec.digest, RawEvidenceNode(codec, p, ref))
  {
    var parts := [KindName(RawEvidence)] + ref.identity;
    var n := RawEvidenceNode(codec, p, ref);
    assert GoodRef(ref);
    NotBlankText("raw evidence span");
    NotBlankText("source_span_observation");
    PayloadGood(codec, hash, n.id, n.body.payload);
    AdmissionProvenanceGood(codec, hash, p, n.id, "source_span_observation", ref.quotedHash);
    NewNodeGood(codec, hash, parts, RawEvidence, n.body.payload, n.body.provenance, p.id);
  }

  lemma EdgeNamed(codec: Codec, hash: string -> string, from: Id, to: Id, relation: Relation)
    requires Standard(codec, hash)
    ensures WellNamed(EdgeIdOf(codec, from, to, relation), EDGE_PREFIX)
  {
    StableShape(hash, "canon-edge", [from, to, RelationName(relation)]);
    assert "canon-edge" + ":" == EDGE_PREFIX;
  }

  lemma SupportsGood(codec: Codec, hash: string -> string, p: Proposal, from: Id, to: Id)
    requires Standard(codec, hash) && GoodProposal(p) && p.refs != []
    ensures EdgeGood(hash, SupportsEdge(codec, p, from, to))
  {
    var e := SupportsEdge(codec, p, from, to);
    EdgeNamed(codec, hash, from, to, SupportsClaim);
    NotBlankText("proposal_admission_edge");
    AdmissionProvenanceGood(codec, hash, p, e.id, "proposal_admission_edge", p.fingerprint);
  }

  lemma DerivedPayloadGood(
    codec: Codec, hash: string -> string, p: Proposal, kind: NodeKind, parents: seq<Id>, d: DerivationInput)
    requires Standard(codec, hash)
    ensures DerivedNode(codec, p, kind, parents, d).body.payload.Complete()
  {
    var n := DerivedNode(codec, p, kind, parents, d);
    NotBlankText(n.body.payload.sourceType);
    NotBlankText(n.body.payload.title);
    NotBlankText(n.body.payload.source);
    PayloadGood(codec, hash, n.id, n.body.payload);
  }

  lemma DerivedProvenanceGood(
    codec: Codec, hash: string -> string, r: Provenance, id: Id, parents: seq<Id>, d: DerivationInput)
    requires Standard(codec, hash) && GoodDerivation(d) && parents != []
             && forall x :: x in parents ==> HasNodePrefix(x)
    requires r == Provenance(codec.stableId("provenance", [id]), parents,
                             codec.stableId("origin-group", [JoinNul(parents)]),
                             d.producer, d.methodName, "v1", d.traceRef, "")
    ensures r.Complete() && r.id == ProvenanceIdOf(hash, id)
  {
    NotBlankText("v1");
    PrefixedNotBlank(parents);
    StableShape(hash, "provenance", [id]);
    StableShape(hash, "origin-group", [JoinNul(parents)]);
  }

  lemma DerivedGood(
    codec: Codec, hash: string -> string, p: Proposal, kind: NodeKind, parents: seq<Id>, d: DerivationInput)
    requires Standard(codec, hash) && GoodDerivation(d) && parents != []
             && forall x :: x in parents ==> HasNodePrefix(x)
    ensures NodeGood(hash, codec.digest, DerivedNode(codec, p, kind, parents, d))
  {
    var n := DerivedNode(codec, p, kind, parents, d);
    var parts := IdentityOf(p, kind, parents, d).Parts();
    DerivedPayloadGood(codec, hash, p, kind, parents, d);
    DerivedProvenanceGood(codec, hash, n.body.provenance, n.id, parents, d);
    NewNodeGood(codec, hash, parts, kind, n.body.payload, n.body.provenance, p.id);
  }

  lemma PrefixedNotBlank(ids: seq<Id>)
    requires forall x :: x in ids ==> HasNodePrefix(x)
    ensures forall x :: x in ids ==> !Blank(x)
  {
    forall x | x in ids
      ensures !Blank(x)
    {
      assert x[0] == NODE_PREFIX[0];
      NotBlankText(x);
    }
  }

  lemma DerivedEdgeGood(
    codec: Codec, hash: string -> string, p: Proposal, nodeId: Id, parents: seq<Id>, d: DerivationInput, parent: Id)
    requires Standard(codec, hash) && GoodDerivation(d) && HasNodePrefix(parent) && HasNodePrefix(nodeId)
    ensures EdgeGood(hash, DerivedEdge(codec, p, nodeId, parents, d, parent))
  {
    var e := DerivedEdge(codec, p, nodeId, parents, d, parent);
    EdgeNamed(codec, hash, parent, nodeId, DerivedFrom);
    NotBlankText("v1");
    PrefixedNotBlank([parent, nodeId]);
    StableShape(hash, "provenance", [e.id]);
    StableShape(hash, "origin-group", [JoinNul(parents)]);
  }

  ghost predicate RowsGood(hash: string -> string, digest: Payload -> string, m: Mutation) {
    && (forall i {:trigger NodeGood(hash, digest, m.nodes[i])} :: 0 <= i < |m.nodes| ==>
        NodeGood(hash, digest, m.nodes[i]))
    && (forall i {:trigger EdgeGood(hash, m.edges[i])} :: 0 <= i < |m.edges| ==> EdgeGood(hash, m.edges[i]))
    && (m.derivation.Some? ==> RA.HeadSound(m.derivation.value) && m.derivation.value.parents != [])
  }

  lemma RawsGood(codec: Codec, hash: string -> string, p: Proposal, i: nat)
    requires Standard(codec, hash) && GoodProposal(p) && i < |p.refs|
    ensures NodeGood(hash, codec.digest, RawNodes(codec, p)[i]) && EdgeGood(hash, SupportsEdges(codec, p)[i])
  {
    RawGood(codec, hash, p, p.refs[i]);
    SupportsGood(codec, hash, p, RawEvidenceNode(codec, p, p.refs[i]).id, ClaimNode(codec, p).id);
  }

  lemma SourceGood(codec: Codec, hash: string -> string, p: Proposal)
    requires Standard(codec, hash) && GoodProposal(p) && p.refs != []
    ensures RowsGood(hash, codec.digest, SourceMutation(codec, p))
  {
    var m := SourceMutation(codec, p);
    ClaimGood(codec, hash, p);
    forall i | 0 <= i < |m.nodes|
      ensures NodeGood(hash, codec.digest, m.nodes[i])
    {
      if i > 0 {
        RawsGood(codec, hash, p, i - 1);
      }
    }
    forall i | 0 <= i < |m.edges|
      ensures EdgeGood(hash, m.edges[i])
    {
      RawsGood(codec, hash, p, i);
    }
  }

  lemma RecordGood(codec: Codec, hash: string -> string, node: Node, parents: seq<Id>, d: DerivationInput)
    requires Standard(codec, hash) && GoodDerivation(d) && HasNodePrefix(node.id)
    ensures RA.HeadSound(DerivedRecord(codec, node, parents, d))
  {
    StableShape(hash, "derivation", [node.id, JoinNul(parents), d.methodName, d.producer, d.traceRef]);
    PrefixedNotBlank([node.id]);
  }

  lemma DerivedRowsGood(
    codec: Codec, hash: string -> string, p: Proposal, kind: NodeKind, parents: seq<Id>, d: DerivationInput)
    requires Standard(codec, hash) && GoodDerivation(d) && parents != []
             && forall x :: x in parents ==> HasNodePrefix(x)
    ensures RowsGood(hash, codec.digest, DerivedMutation(codec, p, kind, parents, d))
  {
    var node := DerivedNode(codec, p, kind, parents, d);
    var edges := DerivedEdges(codec, p, node.id, parents, d);
    DerivedGood(codec, hash, p, kind, parents, d);
    RecordGood(codec, hash, node, parents, d);
    forall i | 0 <= i < |edges|
      ensures EdgeGood(hash, edges[i])
    {
      DerivedEdgeGood(codec, hash, p, node.id, parents, d, parents[i]);
    }
  }

  lemma NormalParents(values: seq<Id>)
    requires ParentsAcceptable(values)
    ensures var parents := SortBy(Trimmed(values), SelfKey);
            parents != [] && forall x :: x in parents ==> HasNodePrefix(x)
  {
    SortedParents(values);
    SortFacts(Trimmed(values), SelfKey);
  }

  /** Whatever is built from complete texts has complete records under ids of its own. */
  lemma BuiltGood(codec: Codec, hash: string -> string, p: Proposal, input: AdmissionInput)
    requires Standard(codec, hash) && GoodProposal(p) && GoodInput(input) && Buildable(p, input)
    ensures RowsGood(hash, codec.digest, Build(codec, p, input))
  {
    if input.candidate.Some? {
      var d := input.candidate.value;
      NormalParents(d.parents);
      DerivedRowsGood(codec, hash, p, Candidate, SortBy(Trimmed(d.parents), SelfKey), d);
    } else if input.derivation.Some? {
      var d := input.derivation.value;
      NormalParents(d.parents);
      DerivedRowsGood(codec, hash, p, DerivedClaim, SortBy(Trimmed(d.parents), SelfKey), d);
    } else {
      SourceGood(codec, hash, p);
    }
  }

  // ----- every step keeps the rows good -----

  lemma LinkKept(db: Db, db': Db, k: Id)
    requires Later(db, db') && k in db.derivations && RowLinked(db, k)
    ensures RowLinked(db', k)
  {
    var row := db.derivations[k];
    forall p | p in row.record.parents
      ensures LinkedBy(db', db'.derivations[k], p)
    {
      assert LinkedBy(db, row, p);
    }
  }

  lemma NodesStayGood(hash: string -> string, digest: Payload -> string, nodes: map<Id, Node>, more: seq<Node>)
    requires GoodNodes(hash, digest, nodes) && forall i :: 0 <= i < |more| ==> NodeGood(hash, digest, more[i])
    ensures GoodNodes(hash, digest, NodesWith(nodes, more))
  {
    forall id | id in NodesWith(nodes, more)
      ensures NodeGood(hash, digest, NodesWith(nodes, more)[id])
    {
      if id in nodes {
        assert NodeGood(hash, digest, nodes[id]);
      } else {
        var i := FindNode(nodes, more, id);
      }
    }
  }

  lemma EdgesStayGood(hash: string -> string, edges: map<Id, Edge>, more: seq<Edge>)
    requires GoodEdges(hash, edges) && forall i :: 0 <= i < |more| ==> EdgeGood(hash, more[i])
    ensures GoodEdges(hash, EdgesWith(edges, more))
  {
    forall id | id in EdgesWith(edges, more)
      ensures EdgeGood(hash, EdgesWith(edges, more)[id])
    {
      if id in edges {
        assert EdgeGood(hash, edges[id]);
      } else {
        var i := FindEdge(edges, more, id);
      }
    }
  }

  /** A derivation's edges are all new, so each parent's entry names the edge just built. */
  lemma NewLink(db: Db, p: Proposal, m: Mutation, input: AdmissionInput, i: nat)
    requires WellFormed(m) && m.derivation.Some? && Persistable(db, m) && i < |m.edges|
    ensures LinkedBy(AfterMutation(db, p, m, input), DerivationRow(m.derivation.value, m.parentEdges, m.proposal),
                     m.edges[i].from)
  {
    assert DistinctKeys(m.edges, EdgeKey) && EdgeFits(db, m.edges[i], false);
    assert m.edges[i].id in db.edges ==> m.edges[i].id in Colliding(db.edges, m.edges[i]);
    PlaceEdge(db.edges, m.edges, i);
    forall a, b | 0 <= a < b < |m.edges|
      ensures m.edges[a].from != m.edges[b].from
    {
      assert m.derivation.value.parents[a] != m.derivation.value.parents[b];
    }
    ParentEdgesFacts(m.edges);
  }

  lemma NewRowLinked(db: Db, p: Proposal, m: Mutation, input: AdmissionInput)
    requires WellFormed(m) && m.derivation.Some? && RA.HeadSound(m.derivation.value) && m.derivation.value.parents != []
    requires ParentsPresent(db, m) && Persistable(db, m)
    ensures RowLinked(AfterMutation(db, p, m, input), m.derivation.value.id)
  {
    var db', d := AfterMutation(db, p, m, input), m.derivation.value;
    PlaceNode(db.nodes, m.nodes, 0);
    forall x | x in d.parents
      ensures LinkedBy(db', DerivationRow(d, m.parentEdges, m.proposal), x)
    {
      var i :| 0 <= i < |d.parents| && d.parents[i] == x;
      NewLink(db, p, m, input, i);
    }
  }

  lemma LinksAfter(db: Db, p: Proposal, m: Mutation, input: AdmissionInput)
    requires RowsLinked(db) && Later(db, AfterMutation(db, p, m, input)) && WellFormed(m)
    requires m.derivation.Some? ==> RA.HeadSound(m.derivation.value) && m.derivation.value.parents != []
    requires ParentsPresent(db, m) && Persistable(db, m)
    ensures RowsLinked(AfterMutation(db, p, m, input))
  {
    var db' := AfterMutation(db, p, m, input);
    forall k | k in db'.derivations
      ensures RowLinked(db', k)
    {
      if k in db.derivations {
        LinkKept(db, db', k);
      } else {
        NewRowLinked(db, p, m, input);
      }
    }
  }

  lemma ProposalsAfter(proposals: map<Id, Proposal>, p: Proposal, outcome: Outcome, ref: Id)
    requires GoodProposals(proposals) && p.id in proposals && proposals[p.id] == p
    ensures GoodProposals(proposals[p.id := Mark(p, outcome, ref)])
  {
    var after := proposals[p.id := Mark(p, outcome, ref)];
    assert GoodProposal(proposals[p.id]);
    forall q | q in after
      ensures GoodProposal(after[q])
    {
      if q != p.id {
        assert GoodProposal(proposals[q]);
      }
    }
  }

  lemma AdmitGood(codec: Codec, hash: string -> string, db: Db, p: Proposal, m: Mutation, input: AdmissionInput)
    requires Good(hash, codec.digest, db) && p.id in db.proposals && db.proposals[p.id] == p && m.proposal == p.id
    requires WellFormed(m) && RowsGood(hash, codec.digest, m) && ParentsPresent(db, m) && Persistable(db, m)
    requires Later(db, AfterMutation(db, p, m, input))
    ensures Good(hash, codec.digest, AfterMutation(db, p, m, input))
  {
    NodesStayGood(hash, codec.digest, db.nodes, m.nodes);
    EdgesStayGood(hash, db.edges, m.edges);
    ProposalsAfter(db.proposals, p, Admitted, m.canonicalRef);
    LinksAfter(db, p, m, input);
  }

  lemma LinksKept(db: Db, db': Db)
    requires Later(db, db') && db'.derivations == db.derivations && RowsLinked(db)
    ensures RowsLinked(db')
  {
    forall k | k in db'.derivations
      ensures RowLinked(db', k)
    {
      LinkKept(db, db', k);
    }
  }

  /** A receipted relation's record is complete. */
  lemma AttachedGood(hash: string -> string, db: Db, e: Edge, r: Receipt)
    requires Attachable(db, e, r) && GoodStep(Attach(e, r)) && GoodEnds(e)
    ensures EdgeGood(hash, e)
  {
    NotBlankText("provenance:" + e.id);
    assert e.id[0] == EDGE_PREFIX[0];
    NotBlankText(e.id);
    NotBlankText("ahe-wrap");
    NotBlankText("reviewed_references");
    NotBlankText("reviewed_derived_implements");
  }

  predicate GoodEnds(e: Edge) {
    !Blank(e.from) && !Blank(e.to) && !Blank(e.origin)
  }

  lemma NodeNamed(hash: string -> string, digest: Payload -> string, nodes: map<Id, Node>, id: Id)
    requires GoodNodes(hash, digest, nodes) && id in nodes && nodes[id].id == id
    ensures WellNamed(id, NODE_PREFIX) && !Blank(id)
  {
    assert NodeGood(hash, digest, nodes[id]);
    assert id[0] == NODE_PREFIX[0];
    NotBlankText(id);
  }

  lemma EndsGood(hash: string -> string, digest: Payload -> string, db: Db, e: Edge)
    requires NodesSound(db) && ProposalsKeyed(db.proposals) && HangsOff(db, e)
    requires GoodNodes(hash, digest, db.nodes) && GoodProposals(db.proposals)
    ensures GoodEnds(e)
  {
    assert AdmissionSpec.NodeSound(db, e.from) && AdmissionSpec.NodeSound(db, e.to);
    NodeNamed(hash, digest, db.nodes, e.from);
    NodeNamed(hash, digest, db.nodes, e.to);
    assert GoodProposal(db.proposals[e.origin]);
  }

  lemma AttachGood(hash: string -> string, digest: Payload -> string, db: Db, e: Edge, r: Receipt)
    requires NodesSound(db) && ProposalsKeyed(db.proposals) && Good(hash, digest, db)
    requires Attachable(db, e, r) && GoodStep(Attach(e, r)) && Later(db, AfterAttachment(db, e, r))
    ensures Good(hash, digest, AfterAttachment(db, e, r))
  {
    var edges := db.edges[e.id := e];
    EndsGood(hash, digest, db, e);
    AttachedGood(hash, db, e, r);
    forall id | id in edges
      ensures EdgeGood(hash, edges[id])
    {
      if id != e.id {
        assert EdgeGood(hash, db.edges[id]);
      }
    }
    LinksKept(db, AfterAttachment(db, e, r));
  }

  lemma SubmitGood(proposals: map<Id, Proposal>, p: Proposal)
    requires GoodProposals(proposals) && GoodProposal(p)
    ensures GoodProposals(proposals[p.id := p])
  {
    var after := proposals[p.id := p];
    forall q | q in after
      ensures GoodProposal(after[q])
    {
      if q != p.id {
        assert GoodProposal(proposals[q]);
      }
    }
  }

  lemma SubmitStepGood(hash: string -> string, digest: Payload -> string, db: Db, p: Proposal)
    requires Good(hash, digest, db) && GoodProposal(p) && Later(db, db.(proposals := db.proposals[p.id := p]))
    ensures Good(hash, digest, db.(proposals := db.proposals[p.id := p]))
  {
    SubmitGood(db.proposals, p);
    LinksKept(db, db.(proposals := db.proposals[p.id := p]));
  }

  lemma DisposeStepGood(
    hash: string -> string, digest: Payload -> string, db: Db, p: Proposal, outcome: Outcome, db': Db)
    requires Good(hash, digest, db) && p.id in db.proposals && db.proposals[p.id] == p && Later(db, db')
    requires db' == db.(proposals := db.proposals[p.id := Mark(p, outcome, "")], decisions := db'.decisions)
    ensures Good(hash, digest, db')
  {
    ProposalsAfter(db.proposals, p, outcome, "");
    LinksKept(db, db');
  }

  lemma AdmitStepGood(codec: Codec, hash: string -> string, db: Db, input: AdmissionInput)
    requires Standard(codec, hash) && ProposalsKeyed(db.proposals) && Good(hash, codec.digest, db) && GoodInput(input)
    requires input.proposal in db.proposals && Admissible(codec, db, db.proposals[input.proposal], input)
    requires Later(db, Apply(codec, db, Admit(input)))
    ensures Good(hash, codec.digest, Apply(codec, db, Admit(input)))
  {
    var p := db.proposals[input.proposal];
    assert GoodProposal(p);
    BuiltGood(codec, hash, p, input);
    BuiltWellFormed(codec, p, input);
    AdmitGood(codec, hash, db, p, Build(codec, p, input), input);
  }

  lemma StepGood(codec: Codec, hash: string -> string, db: Db, step: Step)
    requires Standard(codec, hash) && Inv(db) && Good(hash, codec.digest, db) && Enabled(codec, db, step)
             && GoodStep(step)
    requires Later(db, Apply(codec, db, step))
    ensures Good(hash, codec.digest, Apply(codec, db, step))
  {
    match step
    case Submit(p) => SubmitStepGood(hash, codec.digest, db, p);
    case Admit(input) => AdmitStepGood(codec, hash, db, input);
    case Dispose(proposal, outcome, decision, decider, reason) =>
      DisposeStepGood(hash, codec.digest, db, db.proposals[proposal], outcome, Apply(codec, db, step));
    case Attach(e, r) => AttachGood(hash, codec.digest, db, e, r);
  }

  ghost predicate GoodRun(steps: seq<Step>) {
    forall i :: 0 <= i < |steps| ==> GoodStep(steps[i])
  }

  lemma {:induction false} RunGood(codec: Codec, hash: string -> string, db: Db, steps: seq<Step>)
    requires Standard(codec, hash) && Inv(db) && Good(hash, codec.digest, db) && Run(codec, db, steps) && GoodRun(steps)
    ensures Inv(After(codec, db, steps)) && Good(hash, codec.digest, After(codec, db, steps))
    decreases |steps|
  {
    if steps != [] {
      assert GoodStep(steps[0]) && forall i :: 0 <= i < |steps[1..]| ==> steps[1..][i] == steps[i + 1];
      StepInv(codec, db, steps[0]);
      StepGood(codec, hash, db, steps[0]);
      RunGood(codec, hash, Apply(codec, db, steps[0]), steps[1..]);
    }
  }

  // ----- the store as a read sees it -----

  function NodeRowOf(n: Node): RA.NodeRow {
    RA.NodeRow(n.id, n.body.kind, n.body.payload, n.body.provenance, n.body.temporal, n.body.integrity)
  }

  function EdgeRowOf(e: Edge): BR.EdgeRow {
    BR.EdgeRow(e.id, e.from, e.to, e.relation, e.provenance)
  }

  ghost predicate JoinedRow(db: Db, r: RA.ParentRow) {
    exists k :: k in db.derivations && RowOf(db.derivations[k], r)
  }

  predicate RowOf(row: DerivationRow, r: RA.ParentRow) {
    r.record == row.record && r.parent in row.record.parents && r.parent in row.parentEdges
    && r.edge == row.parentEdges[r.parent]
  }

  predicate NodeListed(nodes: map<Id, Node>, n: RA.NodeRow) {
    n.id in nodes && n == NodeRowOf(nodes[n.id])
  }

  predicate NodeShown(nodes: map<Id, Node>, rows: seq<RA.NodeRow>, id: Id) {
    id in nodes ==> NodeRowOf(nodes[id]) in rows
  }

  predicate EdgeListed(edges: map<Id, Edge>, e: BR.EdgeRow) {
    e.id in edges && e == EdgeRowOf(edges[e.id])
  }

  predicate EdgeShown(edges: map<Id, Edge>, rows: seq<BR.EdgeRow>, id: Id) {
    id in edges ==> EdgeRowOf(edges[id]) in rows
  }

  ghost predicate ViewsNodes(nodes: map<Id, Node>, rows: seq<RA.NodeRow>) {
    && (forall n {:trigger NodeListed(nodes, n)} :: n in rows ==> NodeListed(nodes, n))
    && (forall id {:trigger NodeShown(nodes, rows, id)} :: NodeShown(nodes, rows, id))
  }

  ghost predicate ViewsEdges(edges: map<Id, Edge>, rows: seq<BR.EdgeRow>) {
    && (forall e {:trigger EdgeListed(edges, e)} :: e in rows ==> EdgeListed(edges, e))
    && (forall id {:trigger EdgeShown(edges, rows, id)} :: EdgeShown(edges, rows, id))
  }

  /** The rows of the tables a read queries, each listed once and in any order. */
  ghost predicate Views(db: Db, store: RA.ReadStore) {
    && RA.WellKeyed(store) && NoDuplicates(store.parents)
    && ViewsNodes(db.nodes, store.nodes) && ViewsEdges(db.edges, store.edges)
    && (forall r {:trigger JoinedRow(db, r)} :: r in store.parents <==> JoinedRow(db, r))
  }

  // ----- derivations belong together -----

  lemma RowKey(db: Db, store: RA.ReadStore, r: RA.ParentRow) returns (k: Id)
    requires EachDerivationSound(db) && Views(db, store) && r in store.parents
    ensures k in db.derivations && RowOf(db.derivations[k], r) && r.record.id == k
  {
    assert JoinedRow(db, r);
    k :| k in db.derivations && RowOf(db.derivations[k], r);
    assert DerivationSound(db, k);
  }

  /** Rows of one node come from one derivation. */
  lemma SameDerivation(db: Db, store: RA.ReadStore, r: RA.ParentRow, s: RA.ParentRow)
    requires EachDerivationSound(db) && OneDerivationEach(db.derivations) && Views(db, store)
    requires r in store.parents && s in store.parents
    ensures r.record.nodeId == s.record.nodeId ==> r.record == s.record && (r.parent == s.parent ==> r == s)
    ensures r.record.id == s.record.id ==> r.record == s.record
  {
    var k := RowKey(db, store, r);
    var l := RowKey(db, store, s);
  }

  lemma RowNodeNulFree(hash: string -> string, digest: Payload -> string, db: Db, store: RA.ReadStore, r: RA.ParentRow)
    requires EachDerivationSound(db) && NodesSound(db) && GoodNodes(hash, digest, db.nodes)
    requires Views(db, store) && r in store.parents
    ensures NulFree(r.record.nodeId)
  {
    var k := RowKey(db, store, r);
    assert DerivationSound(db, k) && AdmissionSpec.NodeSound(db, r.record.nodeId);
    NodeNamed(hash, digest, db.nodes, r.record.nodeId);
  }

  lemma ParentsOnce(hash: string -> string, digest: Payload -> string, db: Db, store: RA.ReadStore)
    requires EachDerivationSound(db) && OneDerivationEach(db.derivations) && NodesSound(db)
    requires GoodNodes(hash, digest, db.nodes) && Views(db, store)
    ensures RA.OneDerivationPerNode(store.parents)
  {
    var rows := store.parents;
    forall i, j | 0 <= i < j < |rows|
      ensures RA.ParentRowKey(rows[i]) != RA.ParentRowKey(rows[j])
    {
      assert rows[i] in rows && rows[j] in rows && rows[i] != rows[j];
      RowNodeNulFree(hash, digest, db, store, rows[i]);
      RowNodeNulFree(hash, digest, db, store, rows[j]);
      SameDerivation(db, store, rows[i], rows[j]);
      if RA.ParentRowKey(rows[i]) == RA.ParentRowKey(rows[j]) {
        PairKeyInjective(rows[i].record.nodeId, rows[i].parent, rows[j].record.nodeId, rows[j].parent);
      }
    }
    forall r, s | r in rows && s in rows
      ensures r.record.nodeId == s.record.nodeId ==> r.Head() == s.Head()
      ensures r.record.id == s.record.id ==> r.record.nodeId == s.record.nodeId
    {
      SameDerivation(db, store, r, s);
    }
  }

  lemma RowMatched(db: Db, store: RA.ReadStore, r: RA.ParentRow)
    requires EachDerivationSound(db) && NodesSound(db) && RowsLinked(db) && Views(db, store) && r in store.parents
    ensures RA.ParentSound(store, r) && RA.HeadSound(r.record)
  {
    var k := RowKey(db, store, r);
    assert RowLinked(db, k) && DerivationSound(db, k) && LinkedBy(db, db.derivations[k], r.parent);
    var n, e := db.nodes[r.record.nodeId], db.edges[r.edge];
    assert AdmissionSpec.NodeSound(db, r.record.nodeId);
    assert NodeShown(db.nodes, store.nodes, r.record.nodeId) && RA.Backs(NodeRowOf(n), r.record);
    assert EdgeShown(db.edges, store.edges, r.edge) && RA.Records(EdgeRowOf(e), r);
  }

  lemma NodeHasItsRow(db: Db, store: RA.ReadStore, n: RA.NodeRow)
    requires DerivedNodesHaveOne(db) && RowsLinked(db) && Views(db, store)
    requires n in store.nodes && RA.IsDerived(n.kind)
    ensures RA.NodeHasRow(store.parents, n)
  {
    assert NodeListed(db.nodes, n);
    assert HasDerivation(db, n.id);
    var k :| k in db.derivations && db.derivations[k].record.nodeId == n.id;
    var row := db.derivations[k];
    assert RowLinked(db, k);
    var p := row.record.parents[0];
    assert p in row.record.parents && LinkedBy(db, row, p);
    var r := RA.ParentRow(row.record, p, row.parentEdges[p]);
    assert RowOf(row, r) && JoinedRow(db, r);
  }

  /** The derivation that declares a stored derived_from edge, and the edge is the one it names. */
  lemma EdgeDerivation(db: Db, id: Id) returns (k: Id)
    requires DerivationsSound(db) && EdgesSound(db) && UniqueTriples(db.edges) && RowsLinked(db)
    requires id in db.edges && db.edges[id].relation == DerivedFrom
    ensures k in db.derivations
    ensures var row, e := db.derivations[k], db.edges[id];
            && row.record.nodeId == e.to && e.from in row.record.parents && e.from in row.parentEdges
            && row.parentEdges[e.from] == id && e.id == id
  {
    var e := db.edges[id];
    assert AdmissionSpec.EdgeSound(db, id);
    assert HasDerivation(db, e.to);
    k :| k in db.derivations && db.derivations[k].record.nodeId == e.to;
    var row := db.derivations[k];
    assert DerivationSound(db, k);
    assert e.from in DerivedParents(db.edges, e.to) && e.from in Elements(row.record.parents);
    assert RowLinked(db, k) && LinkedBy(db, row, e.from);
    assert db.edges[row.parentEdges[e.from]].SameTriple(e);
  }

  lemma EdgeHasItsRow(db: Db, store: RA.ReadStore, e: BR.EdgeRow)
    requires DerivationsSound(db) && EdgesSound(db) && UniqueTriples(db.edges) && RowsLinked(db) && Views(db, store)
    requires e in store.edges && e.relation == DerivedFrom
    ensures RA.EdgeHasRow(store.parents, e)
  {
    assert EdgeListed(db.edges, e);
    var k := EdgeDerivation(db, e.id);
    EdgeRowShown(db, store, e, k);
  }

  lemma EdgeRowShown(db: Db, store: RA.ReadStore, e: BR.EdgeRow, k: Id)
    requires (forall r {:trigger JoinedRow(db, r)} :: r in store.parents <==> JoinedRow(db, r))
    requires k in db.derivations && e.relation == DerivedFrom
    requires var row := db.derivations[k];
             && row.record.nodeId == e.to && e.from in row.record.parents && e.from in row.parentEdges
             && row.parentEdges[e.from] == e.id
    ensures RA.EdgeHasRow(store.parents, e)
  {
    var row := db.derivations[k];
    var r := RA.ParentRow(row.record, e.from, e.id);
    assert RowOf(row, r) && JoinedRow(db, r) && RA.Records(e, r);
  }

  lemma DerivationsTogether(hash: string -> string, digest: Payload -> string, db: Db, store: RA.ReadStore)
    requires Inv(db) && Good(hash, digest, db) && Views(db, store)
    ensures RA.DerivationsMatch(store)
  {
    ParentsOnce(hash, digest, db, store);
    forall r | r in store.parents
      ensures RA.ParentSound(store, r)
    {
      RowMatched(db, store, r);
    }
    forall n | n in store.nodes && RA.IsDerived(n.kind)
      ensures RA.NodeHasRow(store.parents, n)
    {
      NodeHasItsRow(db, store, n);
    }
    forall e | e in store.edges && e.relation == DerivedFrom
      ensures RA.EdgeHasRow(store.parents, e)
    {
      EdgeHasItsRow(db, store, e);
    }
  }

  // ----- records under one id are one record -----

  lemma SameNodeRow(store: RA.ReadStore, m: RA.NodeRow, n: RA.NodeRow)
    requires DistinctKeys(store.nodes, RA.NodeRowId) && m in store.nodes && n in store.nodes && m.id == n.id
    ensures m == n
  {
    var i :| 0 <= i < |store.nodes| && store.nodes[i] == m;
    var j :| 0 <= j < |store.nodes| && store.nodes[j] == n;
    assert RA.NodeRowId(store.nodes[i]) == RA.NodeRowId(store.nodes[j]);
  }

  lemma SameEdgeRow(store: RA.ReadStore, d: BR.EdgeRow, e: BR.EdgeRow)
    requires DistinctKeys(store.edges, BR.RowId) && d in store.edges && e in store.edges && d.id == e.id
    ensures d == e
  {
    var i :| 0 <= i < |store.edges| && store.edges[i] == d;
    var j :| 0 <= j < |store.edges| && store.edges[j] == e;
    assert BR.RowId(store.edges[i]) == BR.RowId(store.edges[j]);
  }

  /** A row's records are named after it. */
  predicate RowNamed(hash: string -> string, n: RA.NodeRow) {
    && WellNamed(n.id, NODE_PREFIX)
    && n.payload.id == StableCanonicalId(hash, "payload", [n.id])
    && n.provenance.id == ProvenanceIdOf(hash, n.id)
    && n.temporal.id == StableCanonicalId(hash, "temporal", [n.id])
    && n.integrity.id == StableCanonicalId(hash, "integrity", [n.payload.id])
  }

  ghost predicate LinkGood(hash: string -> string, e: BR.EdgeRow) {
    && WellNamed(e.id, EDGE_PREFIX) && e.provenance.Complete()
    && (e.provenance.id == ProvenanceIdOf(hash, e.id) || e.provenance.id == "provenance:" + e.id)
  }

  ghost predicate ViewNamed(hash: string -> string, store: RA.ReadStore) {
    && RA.WellKeyed(store)
    && (forall n {:trigger RowNamed(hash, n)} :: n in store.nodes ==> RowNamed(hash, n))
    && (forall e {:trigger LinkGood(hash, e)} :: e in store.edges ==> LinkGood(hash, e))
  }

  lemma ListedGood(hash: string -> string, digest: Payload -> string, db: Db, store: RA.ReadStore, n: RA.NodeRow)
    requires NodesSound(db) && GoodNodes(hash, digest, db.nodes) && ViewsNodes(db.nodes, store.nodes)
             && n in store.nodes
    ensures RowNamed(hash, n) && RA.NodeSound(n, digest)
  {
    assert NodeListed(db.nodes, n) && AdmissionSpec.NodeSound(db, n.id);
    assert NodeGood(hash, digest, db.nodes[n.id]);
    NodeNamed(hash, digest, db.nodes, n.id);
  }

  lemma ListedLink(hash: string -> string, db: Db, store: RA.ReadStore, e: BR.EdgeRow)
    requires EdgesSound(db) && GoodEdges(hash, db.edges) && ViewsEdges(db.edges, store.edges) && e in store.edges
    ensures LinkGood(hash, e)
  {
    assert EdgeListed(db.edges, e) && AdmissionSpec.EdgeSound(db, e.id);
    assert EdgeGood(hash, db.edges[e.id]);
  }

  lemma ViewIsNamed(hash: string -> string, digest: Payload -> string, db: Db, store: RA.ReadStore)
    requires NodesSound(db) && EdgesSound(db) && GoodNodes(hash, digest, db.nodes) && GoodEdges(hash, db.edges)
    requires RA.WellKeyed(store) && ViewsNodes(db.nodes, store.nodes) && ViewsEdges(db.edges, store.edges)
    ensures ViewNamed(hash, store)
  {
    forall n | n in store.nodes
      ensures RowNamed(hash, n)
    {
      ListedGood(hash, digest, db, store, n);
    }
    forall e | e in store.edges
      ensures LinkGood(hash, e)
    {
      ListedLink(hash, db, store, e);
    }
  }

  /** A record named by hash is never one named by an edge. */
  lemma NamedApart(hash: string -> string, id: Id, e: Id)
    requires HexHash(hash) && WellNamed(e, EDGE_PREFIX)
    ensures ProvenanceIdOf(hash, id) != "provenance:" + e
  {
    TrimFacts("provenance");
    HexIsNoEdge(hash(Frame([id])), e);
    Cancel("provenance:", hash(Frame([id])), e);
    assert "provenance" + ":" == "provenance:";
  }

  lemma Cancel(p: string, a: string, b: string)
    ensures p + a == p + b <==> a == b
  {
    assert (p + a)[|p|..] == a && (p + b)[|p|..] == b;
  }

  lemma HexIsNoEdge(h: string, e: Id)
    requires (forall i :: 0 <= i < |h| ==> HexDigit(h[i])) && EDGE_PREFIX <= e
    ensures h != e
  {
    assert e[2] == EDGE_PREFIX[2] && !HexDigit(EDGE_PREFIX[2]);
  }

  /** The owner of a provenance record: a node or an edge. */
  datatype Owner = OwnNode(n: RA.NodeRow) | OwnEdge(e: BR.EdgeRow) {
    function Record(): Provenance {
      match this case OwnNode(n) => n.provenance case OwnEdge(e) => e.provenance
    }

    predicate In(store: RA.ReadStore) {
      match this case OwnNode(n) => n in store.nodes case OwnEdge(e) => e in store.edges
    }
  }

  lemma OneOwner(hash: string -> string, store: RA.ReadStore, x: Owner, y: Owner)
    requires HexHash(hash) && CollisionFree(hash) && ViewNamed(hash, store) && x.In(store) && y.In(store)
    requires x.Record().id == y.Record().id
    ensures x == y
  {
    match (x, y)
    case (OwnNode(m), OwnNode(n)) =>
      assert RowNamed(hash, m) && RowNamed(hash, n);
      StableInjective(hash, "provenance", m.id, n.id);
      SameNodeRow(store, m, n);
    case (OwnEdge(d), OwnEdge(e)) => OneEdgeOwner(hash, store, d, e);
    case (OwnNode(n), OwnEdge(e)) => NodeNotEdge(hash, store, n, e);
    case (OwnEdge(e), OwnNode(n)) => NodeNotEdge(hash, store, n, e);
  }

  lemma OneEdgeOwner(hash: string -> string, store: RA.ReadStore, d: BR.EdgeRow, e: BR.EdgeRow)
    requires HexHash(hash) && CollisionFree(hash) && ViewNamed(hash, store)
    requires d in store.edges && e in store.edges && d.provenance.id == e.provenance.id
    ensures d == e
  {
    assert LinkGood(hash, d) && LinkGood(hash, e);
    NamedApart(hash, d.id, e.id);
    NamedApart(hash, e.id, d.id);
    if d.provenance.id == ProvenanceIdOf(hash, d.id) {
      StableInjective(hash, "provenance", d.id, e.id);
    } else {
      Cancel("provenance:", d.id, e.id);
    }
    SameEdgeRow(store, d, e);
  }

  lemma NodeNotEdge(hash: string -> string, store: RA.ReadStore, n: RA.NodeRow, e: BR.EdgeRow)
    requires HexHash(hash) && CollisionFree(hash) && ViewNamed(hash, store) && n in store.nodes && e in store.edges
    ensures n.provenance.id != e.provenance.id
  {
    assert RowNamed(hash, n) && LinkGood(hash, e);
    NamedApart(hash, n.id, e.id);
    ProvenanceIdsDiffer(hash, n.id, e.id);
  }

  lemma ProvenanceOwner(store: RA.ReadStore, p: Provenance) returns (x: Owner)
    requires p in RA.AllProvenance(store.nodes, store.edges)
    ensures x.In(store) && x.Record() == p
  {
    if p in Mapped(store.nodes, RA.NodeProvenance) {
      var n := RA.MappedFrom(store.nodes, RA.NodeProvenance, p);
      x := OwnNode(n);
    } else {
      var e := RA.MappedFrom(store.edges, RA.EdgeProvenance, p);
      x := OwnEdge(e);
    }
  }

  lemma ProvenanceAgrees(hash: string -> string, store: RA.ReadStore)
    requires HexHash(hash) && CollisionFree(hash) && ViewNamed(hash, store)
    ensures RA.Agree(RA.AllProvenance(store.nodes, store.edges), ProvenanceId)
  {
    var all := RA.AllProvenance(store.nodes, store.edges);
    forall p, q | p in all && q in all && ProvenanceId(p) == ProvenanceId(q)
      ensures p == q
    {
      var x := ProvenanceOwner(store, p);
      var y := ProvenanceOwner(store, q);
      OneOwner(hash, store, x, y);
    }
  }

  lemma PayloadNode(hash: string -> string, m: RA.NodeRow, n: RA.NodeRow)
    requires CollisionFree(hash) && RowNamed(hash, m) && RowNamed(hash, n)
    ensures m.payload.id == n.payload.id ==> m.id == n.id
  {
    if m.payload.id == n.payload.id {
      StableInjective(hash, "payload", m.id, n.id);
    }
  }

  lemma TemporalNode(hash: string -> string, m: RA.NodeRow, n: RA.NodeRow)
    requires CollisionFree(hash) && RowNamed(hash, m) && RowNamed(hash, n)
    ensures m.temporal.id == n.temporal.id ==> m.id == n.id
  {
    if m.temporal.id == n.temporal.id {
      StableInjective(hash, "temporal", m.id, n.id);
    }
  }

  lemma PayloadIdTight(hash: string -> string, id: Id)
    requires HexHash(hash)
    ensures Tight(StableCanonicalId(hash, "payload", [id]))
  {
    StableShape(hash, "payload", [id]);
  }

  lemma IntegrityNode(hash: string -> string, m: RA.NodeRow, n: RA.NodeRow)
    requires HexHash(hash) && CollisionFree(hash) && RowNamed(hash, m) && RowNamed(hash, n)
    ensures m.integrity.id == n.integrity.id ==> m.id == n.id
  {
    PayloadIdTight(hash, m.id);
    PayloadIdTight(hash, n.id);
    if m.integrity.id == n.integrity.id {
      StableInjective(hash, "integrity", m.payload.id, n.payload.id);
      PayloadNode(hash, m, n);
    }
  }

  lemma SidecarNode(hash: string -> string, store: RA.ReadStore, m: RA.NodeRow, n: RA.NodeRow)
    requires HexHash(hash) && CollisionFree(hash) && ViewNamed(hash, store) && m in store.nodes && n in store.nodes
    ensures m.payload.id == n.payload.id ==> m == n
    ensures m.temporal.id == n.temporal.id ==> m == n
    ensures m.integrity.id == n.integrity.id ==> m == n
  {
    assert RowNamed(hash, m) && RowNamed(hash, n);
    PayloadNode(hash, m, n);
    TemporalNode(hash, m, n);
    IntegrityNode(hash, m, n);
    if m.id == n.id {
      SameNodeRow(store, m, n);
    }
  }

  lemma SidecarsAgree<T>(
    store: RA.ReadStore, f: RA.NodeRow -> T, key: T -> string)
    requires forall m, n :: m in store.nodes && n in store.nodes && key(f(m)) == key(f(n)) ==> m == n
    ensures RA.Agree(Mapped(store.nodes, f), key)
  {
    var all := Mapped(store.nodes, f);
    forall p, q | p in all && q in all && key(p) == key(q)
      ensures p == q
    {
      var m := RA.MappedFrom(store.nodes, f, p);
      var n := RA.MappedFrom(store.nodes, f, q);
    }
  }

  lemma RecordsTogether(hash: string -> string, store: RA.ReadStore)
    requires HexHash(hash) && CollisionFree(hash) && ViewNamed(hash, store)
    ensures RA.RecordsAgree(store.nodes, store.edges)
  {
    forall m, n | m in store.nodes && n in store.nodes
      ensures PayloadId(RA.PayloadOf(m)) == PayloadId(RA.PayloadOf(n)) ==> m == n
      ensures TemporalId(RA.TemporalOf(m)) == TemporalId(RA.TemporalOf(n)) ==> m == n
      ensures IntegrityId(RA.IntegrityOf(m)) == IntegrityId(RA.IntegrityOf(n)) ==> m == n
    {
      SidecarNode(hash, store, m, n);
    }
    SidecarsAgree(store, RA.PayloadOf, PayloadId);
    SidecarsAgree(store, RA.TemporalOf, TemporalId);
    SidecarsAgree(store, RA.IntegrityOf, IntegrityId);
    ProvenanceAgrees(hash, store);
  }

  lemma IdListed(db: Db, store: RA.ReadStore, id: Id)
    requires NodesSound(db) && ViewsNodes(db.nodes, store.nodes) && id in db.nodes
    ensures id in RA.NodeIds(store.nodes)
  {
    assert NodeShown(db.nodes, store.nodes, id) && AdmissionSpec.NodeSound(db, id);
    RA.MappedHas(store.nodes, RA.NodeRowId, NodeRowOf(db.nodes[id]));
  }

  lemma ListedEdgeSound(hash: string -> string, db: Db, store: RA.ReadStore, e: BR.EdgeRow)
    requires NodesSound(db) && EdgesSound(db) && GoodEdges(hash, db.edges)
    requires ViewsNodes(db.nodes, store.nodes) && ViewsEdges(db.edges, store.edges) && e in store.edges
    ensures RA.EdgeSound(e, RA.NodeIds(store.nodes))
  {
    assert EdgeListed(db.edges, e) && AdmissionSpec.EdgeSound(db, e.id);
    ListedLink(hash, db, store, e);
    assert e.id[0] == EDGE_PREFIX[0];
    NotBlankText(e.id);
    IdListed(db, store, e.from);
    IdListed(db, store, e.to);
  }

  lemma AllRecordsSound(hash: string -> string, digest: Payload -> string, db: Db, store: RA.ReadStore)
    requires HexHash(hash) && CollisionFree(hash) && NodesSound(db) && EdgesSound(db) && EachDerivationSound(db)
    requires Good(hash, digest, db) && Views(db, store)
    ensures RA.RecordsSound(store, digest)
  {
    ViewIsNamed(hash, digest, db, store);
    RecordsTogether(hash, store);
    forall n | n in store.nodes
      ensures RA.NodeSound(n, digest)
    {
      ListedGood(hash, digest, db, store, n);
    }
    forall e | e in store.edges
      ensures RA.EdgeSound(e, RA.NodeIds(store.nodes))
    {
      ListedEdgeSound(hash, db, store, e);
    }
    forall r | r in store.parents
      ensures RA.HeadSound(r.record)
    {
      RowMatched(db, store, r);
    }
  }

  /**
   After every run of admissions, dispositions and reviewed relations over complete texts, with
   a hexadecimal hash that has no collisions, the tables are sound for a read.
   */
  lemma ReachableStoreSound(codec: Codec, hash: string -> string, steps: seq<Step>, store: RA.ReadStore)
    requires Standard(codec, hash) && Run(codec, EMPTY, steps) && GoodRun(steps)
    requires Views(After(codec, EMPTY, steps), store)
    ensures RA.StoreSound(store, codec.digest)
  {
    EmptyInv();
    RunGood(codec, hash, EMPTY, steps);
    var db := After(codec, EMPTY, steps);
    AllRecordsSound(hash, codec.digest, db, store);
    DerivationsTogether(hash, codec.digest, db, store);
  }

  /** So a read of such tables that fits its budgets is decided by what is stored within reach. */
  lemma ReachableReadDecided(
    codec: Codec, hash: string -> string, steps: seq<Step>, store: RA.ReadStore, q: BR.ReadRequest,
    found: RA.Selection)
    requires Standard(codec, hash) && Run(codec, EMPTY, steps) && GoodRun(steps)
    requires Views(After(codec, EMPTY, steps), store)
    requires BR.RequestAcceptable(q) && RA.Selected(store, q, found) && RA.Fits(store, q)
    ensures !found.truncated
    ensures Elements(Trimmed(q.roots)) <= RA.NodeIds(store.nodes) && RA.SelectionClosed(store, found) <==>
            RA.KnownToSucceed(store, q)
  {
    ReachableStoreSound(codec, hash, steps, store);
    RA.UntruncatedReadSucceeds(store, q, found, codec.digest);
  }
}
