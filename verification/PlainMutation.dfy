/**
 The rows an admission builds, field by field from the proposal and the input, and what
 their ids depend on.
 */
module PlainMutation {
  import opened Outcomes
  import opened Ordering
  import opened Evidence
  import opened Identity
  import opened AdmissionModel

  /** The program's ids over a hash without collisions. */
  ghost predicate Hashed(codec: Codec, hash: string -> string) {
    && (forall prefix, parts :: codec.stableId(prefix, parts) == StableCanonicalId(hash, prefix, parts))
    && CollisionFree(hash)
  }

  ghost predicate SourceBackedInput(p: Proposal, input: AdmissionInput) {
    Buildable(p, input) && input.derivation.None? && input.candidate.None?
  }

  // ----- the rows of a source-backed admission -----

  /** The quoted spans as the claim's id takes them. */
  function Encoded(codec: Codec, p: Proposal): string {
    codec.encodeRefs(Mapped(p.refs, RefEncoding))
  }

  /** Every provenance record of a source-backed admission but for its id, method and trace. */
  ghost predicate FromProposal(p: Proposal, r: Provenance) {
    && r.originGroup == p.originGroup && r.producer == p.extractor && r.methodVersion == "v1" && r.reviewRef == ""
    && |r.originRefs| >= |p.origins| && r.originRefs[..|p.origins|] == p.origins
  }

  ghost predicate Sealed(codec: Codec, n: Node) {
    && n.body.payload.id == codec.stableId("payload", [n.id])
    && n.body.provenance.id == codec.stableId("provenance", [n.id])
    && n.body.temporal.id == codec.stableId("temporal", [n.id]) && n.body.temporal.body == "unknown"
    && n.body.integrity.id == codec.stableId("integrity", [n.body.payload.id])
    && n.body.integrity.digest == codec.digest(n.body.payload)
  }

  ghost predicate ClaimRow(codec: Codec, p: Proposal, n: Node) {
    && n.id == codec.stableId("canon-node", ["source_claim", p.statement, Encoded(codec, p)])
    && n.origin == p.id && n.body.kind == SourceClaim && Sealed(codec, n)
    && n.body.payload.claim == p.statement && n.body.payload.sourceType == p.sourceType
    && n.body.payload.source == p.sourceLabel && n.body.payload.title == "source claim"
    && n.body.payload.applicability == ""
    && n.body.payload.span == Joined(Mapped(p.refs, QuotedText))
    && n.body.payload.spanLocator == Joined(Mapped(p.refs, Locator))
    && FromProposal(p, n.body.provenance)
    && n.body.provenance.methodName == "proposal_admission" && n.body.provenance.traceRef == p.fingerprint
  }

  ghost predicate RawRow(codec: Codec, p: Proposal, ref: SourceRef, n: Node) {
    && n.id == codec.stableId("canon-node", ["raw_evidence"] + ref.identity)
    && n.origin == p.id && n.body.kind == RawEvidence && Sealed(codec, n)
    && n.body.payload.span == ref.quotedText && n.body.payload.spanLocator == ref.locator
    && n.body.payload.claim == "" && n.body.payload.applicability == ""
    && n.body.payload.sourceType == p.sourceType && n.body.payload.source == p.sourceLabel
    && n.body.payload.title == "raw evidence span"
    && FromProposal(p, n.body.provenance)
    && n.body.provenance.methodName == "source_span_observation" && n.body.provenance.traceRef == ref.quotedHash
  }

  /** From the raw evidence to the claim that it supports. */
  ghost predicate SupportRow(codec: Codec, p: Proposal, raw: Node, claim: Node, e: Edge) {
    && e.id == codec.stableId("canon-edge", [raw.id, claim.id, "supports_claim"])
    && e.from == raw.id && e.to == claim.id && e.relation == SupportsClaim && e.origin == p.id
    && e.provenance.id == codec.stableId("provenance", [e.id]) && FromProposal(p, e.provenance)
    && e.provenance.methodName == "proposal_admission_edge" && e.provenance.traceRef == p.fingerprint
  }

  /** One claim, and for each span one raw-evidence node and one edge from it to the claim. */
  lemma BuiltSourceRows(codec: Codec, p: Proposal, input: AdmissionInput)
    requires SourceBackedInput(p, input)
    ensures var m := Build(codec, p, input);
            && |m.nodes| == |p.refs| + 1 && |m.edges| == |p.refs|
            && m.proposal == p.id && m.canonicalRef == m.nodes[0].id
            && m.decision == codec.decision(p.id, m.canonicalRef) && m.derivation.None? && m.parentEdges == map[]
            && ClaimRow(codec, p, m.nodes[0])
            && (forall i :: 0 <= i < |p.refs| ==>
                  && RawRow(codec, p, p.refs[i], m.nodes[i + 1])
                  && SupportRow(codec, p, m.nodes[i + 1], m.nodes[0], m.edges[i]))
            && |m.rawNodes| == |p.refs| && |m.edgeIds| == |p.refs|
            && (forall i :: 0 <= i < |p.refs| ==> m.rawNodes[i] == m.nodes[i + 1].id && m.edgeIds[i] == m.edges[i].id)
  {
    ClaimIsRow(codec, p);
    forall i | 0 <= i < |p.refs|
      ensures RawRow(codec, p, p.refs[i], RawNodes(codec, p)[i])
      ensures SupportRow(codec, p, RawNodes(codec, p)[i], ClaimNode(codec, p), SupportsEdges(codec, p)[i])
    {
      RawIsRow(codec, p, p.refs[i]);
      SupportIsRow(codec, p, RawNodes(codec, p)[i], ClaimNode(codec, p));
    }
  }

  lemma ClaimIsRow(codec: Codec, p: Proposal)
    ensures ClaimRow(codec, p, ClaimNode(codec, p))
  {
    OriginsFirst(p);
  }

  lemma RawIsRow(codec: Codec, p: Proposal, ref: SourceRef)
    ensures RawRow(codec, p, ref, RawEvidenceNode(codec, p, ref))
  {
    OriginsFirst(p);
  }

  lemma SupportIsRow(codec: Codec, p: Proposal, raw: Node, claim: Node)
    ensures SupportRow(codec, p, raw, claim, SupportsEdge(codec, p, raw.id, claim.id))
  {
    OriginsFirst(p);
  }

  lemma OriginsFirst(p: Proposal)
    ensures |OriginRefs(p)| >= |p.origins| && OriginRefs(p)[..|p.origins|] == p.origins
  {
  }

  /** Spans and locators are listed in order with line breaks between them. */
  lemma {:induction false} JoinedAppend(parts: seq<string>, last: string)
    ensures Joined(parts + [last]) == if parts == [] then last else Joined(parts) + "\n" + last
  {
    if parts != [] {
      assert (parts + [last])[1..] == parts[1..] + [last];
      JoinedAppend(parts[1..], last);
    }
  }

  /** Origins end with the locators; in a repository each file is named once, before its first locator. */
  lemma {:induction false} OriginsAppend(refs: seq<SourceRef>, files: bool, seen: set<Id>, last: SourceRef)
    ensures RefOrigins(refs + [last], files, seen) ==
            RefOrigins(refs, files, seen)
            + (if files && last.file !in seen && (forall r :: r in refs ==> r.file != last.file) then [last.file]
               else [])
            + [last.locator]
  {
    if refs == [] {
      assert refs + [last] == [last];
      assert [last][1..] == [];
    } else {
      assert (refs + [last])[1..] == refs[1..] + [last];
      var seen' := if files && refs[0].file !in seen then seen + {refs[0].file} else seen;
      OriginsAppend(refs[1..], files, seen', last);
      assert refs == [refs[0]] + refs[1..];
    }
  }

  // ----- the rows of a derivation -----

  ghost predicate ByMethod(d: DerivationInput, r: Provenance) {
    && r.producer == d.producer && r.methodName == d.methodName && r.traceRef == d.traceRef
    && r.methodVersion == "v1" && r.reviewRef == ""
  }

  ghost predicate DerivedRow(codec: Codec, p: Proposal, kind: NodeKind, parents: seq<Id>, d: DerivationInput, n: Node) {
    && n.id == codec.stableId("canon-node", [if kind == Candidate then "candidate" else "derived_claim", p.id,
                                             p.statement, JoinNul(parents), d.methodName, d.producer, d.traceRef])
    && n.origin == p.id && n.body.kind == kind && Sealed(codec, n) && n.body.payload.claim == p.statement
    && n.body.payload.span == "" && n.body.payload.spanLocator == "" && n.body.payload.applicability == ""
    && n.body.payload.sourceType == (if kind == Candidate then "candidate" else "derived")
    && n.body.payload.title == (if kind == Candidate then "derived candidate" else "derived claim")
    && n.body.payload.source == (if kind == Candidate then "ahe:candidate" else "ahe:derivation")
    && n.body.provenance.originRefs == parents && ByMethod(d, n.body.provenance)
    && n.body.provenance.originGroup == codec.stableId("origin-group", [JoinNul(parents)])
  }

  /** From the parent to the derived node. */
  ghost predicate ParentRow(codec: Codec, p: Proposal, d: DerivationInput, parent: Id, n: Node, e: Edge) {
    && e.id == codec.stableId("canon-edge", [parent, n.id, "derived_from"])
    && e.from == parent && e.to == n.id && e.relation == DerivedFrom && e.origin == p.id
    && e.provenance.id == codec.stableId("provenance", [e.id]) && e.provenance.originRefs == [parent, n.id]
    && ByMethod(d, e.provenance) && e.provenance.originGroup == n.body.provenance.originGroup
  }

  ghost predicate RecordRow(codec: Codec, parents: seq<Id>, d: DerivationInput, n: Node, r: Derivation) {
    && r.useClass == "" && r.nodeId == n.id && r.parents == parents && r.methodName == d.methodName
    && r.producer == d.producer && r.traceRef == d.traceRef && r.provenanceRef == n.body.provenance.id
    && r.id == codec.stableId("derivation", [n.id, JoinNul(parents), d.methodName, d.producer, d.traceRef])
  }

  /** The kind and description an input asks for. */
  ghost predicate Asks(p: Proposal, input: AdmissionInput, kind: NodeKind, d: DerivationInput) {
    && Buildable(p, input)
    && ((kind == Candidate && input.candidate == Some(d)) || (kind == DerivedClaim && input.derivation == Some(d)))
  }

  /** The trimmed parents in order, one edge from each, and the derivation over all of them. */
  lemma BuiltDerivedRows(codec: Codec, p: Proposal, input: AdmissionInput, kind: NodeKind, d: DerivationInput)
    requires Asks(p, input, kind, d)
    ensures var m, parents := Build(codec, p, input), SortBy(Trimmed(d.parents), SelfKey);
            && multiset(parents) == multiset(Trimmed(d.parents)) && NoDuplicates(parents)
            && (forall i, j :: 0 <= i < j < |parents| ==> Leq(parents[i], parents[j]))
            && |m.nodes| == 1 && |m.edges| == |parents| && m.derivation.Some?
            && m.proposal == p.id && m.canonicalRef == m.nodes[0].id
            && m.decision == codec.decision(p.id, m.canonicalRef) && m.rawNodes == []
            && DerivedRow(codec, p, kind, parents, d, m.nodes[0])
            && RecordRow(codec, parents, d, m.nodes[0], m.derivation.value)
  {
    SortFacts(Trimmed(d.parents), SelfKey);
    SortedParents(d.parents);
    var parents := SortBy(Trimmed(d.parents), SelfKey);
    assert forall i, j :: 0 <= i < j < |parents| ==> Leq(SelfKey(parents[i]), SelfKey(parents[j]));
  }

  lemma OneParentRow(codec: Codec, p: Proposal, kind: NodeKind, parents: seq<Id>, d: DerivationInput, i: nat)
    requires i < |parents|
    ensures var n := DerivedNode(codec, p, kind, parents, d);
            ParentRow(codec, p, d, parents[i], n, DerivedEdges(codec, p, n.id, parents, d)[i])
  {
    var n := DerivedNode(codec, p, kind, parents, d);
    ParentIsRow(codec, p, parents, d, parents[i], n);
  }

  lemma ParentIsRow(codec: Codec, p: Proposal, parents: seq<Id>, d: DerivationInput, parent: Id, n: Node)
    requires n.body.provenance.originGroup == codec.stableId("origin-group", [JoinNul(parents)])
    ensures ParentRow(codec, p, d, parent, n, DerivedEdge(codec, p, n.id, parents, d, parent))
  {
  }

  lemma ParentMap(edges: seq<Edge>, parents: seq<Id>)
    requires |edges| == |parents| && NoDuplicates(parents)
    requires forall i :: 0 <= i < |parents| ==> edges[i].from == parents[i]
    ensures ParentEdges(edges).Keys == Elements(parents)
    ensures forall i :: 0 <= i < |parents| ==> ParentEdges(edges)[parents[i]] == edges[i].id
  {
    ParentEdgesFacts(edges);
    assert forall i :: 0 <= i < |parents| ==> edges[i].from in ParentEdges(edges);
  }

  /** One edge from each parent to the node, filed under its parent. */
  ghost predicate ParentRows(codec: Codec, p: Proposal, parents: seq<Id>, d: DerivationInput, m: Mutation) {
    && |m.nodes| == 1 && |m.edges| == |parents| && |m.edgeIds| == |parents|
    && m.parentEdges.Keys == Elements(parents)
    && forall i :: 0 <= i < |parents| ==>
         && ParentRow(codec, p, d, parents[i], m.nodes[0], m.edges[i]) && m.edgeIds[i] == m.edges[i].id
         && m.parentEdges[parents[i]] == m.edges[i].id
  }

  lemma DerivedParentRows(codec: Codec, p: Proposal, kind: NodeKind, parents: seq<Id>, d: DerivationInput)
    requires NoDuplicates(parents)
    ensures ParentRows(codec, p, parents, d, DerivedMutation(codec, p, kind, parents, d))
  {
    var m := DerivedMutation(codec, p, kind, parents, d);
    ParentMap(m.edges, parents);
    forall i | 0 <= i < |parents|
      ensures ParentRow(codec, p, d, parents[i], m.nodes[0], m.edges[i])
    {
      OneParentRow(codec, p, kind, parents, d, i);
    }
  }

  lemma BuiltParentRows(codec: Codec, p: Proposal, input: AdmissionInput, kind: NodeKind, d: DerivationInput)
    requires Asks(p, input, kind, d)
    ensures ParentRows(codec, p, SortBy(Trimmed(d.parents), SelfKey), d, Build(codec, p, input))
  {
    SortedParents(d.parents);
    DerivedParentRows(codec, p, kind, SortBy(Trimmed(d.parents), SelfKey), d);
  }

  // ----- what ids depend on -----

  lemma TrimmedNulFree(parts: seq<string>)
    requires AllNulFree(parts)
    ensures AllNulFree(Trimmed(parts))
  {
    forall i | 0 <= i < |parts|
      ensures NulFree(Trimmed(parts)[i])
    {
      TrimFacts(parts[i]);
    }
  }

  /** Ids of one kind agree exactly when their parts agree up to margins, number included. */
  lemma IdsAgree(codec: Codec, hash: string -> string, prefix: string, parts: seq<string>, parts': seq<string>)
    requires Hashed(codec, hash) && AllNulFree(parts) && AllNulFree(parts')
    ensures codec.stableId(prefix, parts) == codec.stableId(prefix, parts') <==> Trimmed(parts) == Trimmed(parts')
  {
    StableIdsAgree(hash, prefix, parts, parts');
    FrameIsTerminated(parts);
    FrameIsTerminated(parts');
    TrimmedNulFree(parts);
    TrimmedNulFree(parts');
    if Frame(parts) == Frame(parts') {
      TerminatedInjective(Trimmed(parts), Trimmed(parts'));
    }
  }

  lemma KindNames(k: NodeKind)
    ensures TrimSpace(KindName(k)) == KindName(k) && NulFree(KindName(k))
  {
    TrimTight(KindName(k));
  }

  lemma KindNamesDiffer(k: NodeKind, l: NodeKind)
    ensures KindName(k) == KindName(l) ==> k == l
  {
  }

  lemma RelationNames(r: Relation)
    ensures TrimSpace(RelationName(r)) == RelationName(r) && NulFree(RelationName(r))
  {
    TrimTight(RelationName(r));
  }

  lemma RelationNamesDiffer(r: Relation, s: Relation)
    ensures RelationName(r) == RelationName(s) ==> r == s
  {
    match r
    case SupportsClaim => assert |RelationName(r)| == 14;
    case Contradicts => assert |RelationName(r)| == 11;
    case References => assert RelationName(r)[0] == 'r' && |RelationName(r)| == 10;
    case Supersedes => assert RelationName(r)[0] == 's' && |RelationName(r)| == 10;
    case Implements => assert RelationName(r)[0] == 'i' && |RelationName(r)| == 10;
    case DerivedFrom => assert |RelationName(r)| == 12;
  }

  lemma TrimmedThree(a: string, b: string, c: string, a': string, b': string, c': string)
    ensures Trimmed([a, b, c]) == Trimmed([a', b', c']) <==>
            TrimSpace(a) == TrimSpace(a') && TrimSpace(b) == TrimSpace(b') && TrimSpace(c) == TrimSpace(c')
  {
    var s, s' := Trimmed([a, b, c]), Trimmed([a', b', c']);
    assert s == [TrimSpace(a), TrimSpace(b), TrimSpace(c)];
    assert s' == [TrimSpace(a'), TrimSpace(b'), TrimSpace(c')];
    assert s == s' ==> s[0] == s'[0] && s[1] == s'[1] && s[2] == s'[2];
  }

  /** Two source-backed claims are one node exactly when statement and quoted spans agree up to margins. */
  lemma ClaimIdsIdentify(
    codec: Codec, hash: string -> string, p: Proposal, q: Proposal, input: AdmissionInput, input': AdmissionInput)
    requires Hashed(codec, hash) && SourceBackedInput(p, input) && SourceBackedInput(q, input')
    requires NulFree(p.statement) && NulFree(q.statement) && NulFree(Encoded(codec, p)) && NulFree(Encoded(codec, q))
    ensures Build(codec, p, input).canonicalRef == Build(codec, q, input').canonicalRef <==>
            TrimSpace(p.statement) == TrimSpace(q.statement)
            && TrimSpace(Encoded(codec, p)) == TrimSpace(Encoded(codec, q))
  {
    KindNames(SourceClaim);
    var name := KindName(SourceClaim);
    IdsAgree(codec, hash, "canon-node", [name, p.statement, Encoded(codec, p)], [name, q.statement, Encoded(codec, q)]);
    TrimmedThree(name, p.statement, Encoded(codec, p), name, q.statement, Encoded(codec, q));
  }

  lemma TrimmedTail(head: string, a: seq<string>, b: seq<string>)
    ensures Trimmed([head] + a) == Trimmed([head] + b) <==> Trimmed(a) == Trimmed(b)
  {
    assert Trimmed([head] + a) == [TrimSpace(head)] + Trimmed(a);
    assert Trimmed([head] + b) == [TrimSpace(head)] + Trimmed(b);
    assert Trimmed([head] + a)[1..] == Trimmed(a) && Trimmed([head] + b)[1..] == Trimmed(b);
  }

  /** Two quoted spans are one raw-evidence node exactly when their coordinates and text hash agree. */
  lemma RawIdsIdentify(
    codec: Codec, hash: string -> string, p: Proposal, q: Proposal, input: AdmissionInput, input': AdmissionInput,
    i: nat, j: nat)
    requires Hashed(codec, hash) && SourceBackedInput(p, input) && SourceBackedInput(q, input')
    requires i < |p.refs| && j < |q.refs| && AllNulFree(p.refs[i].identity) && AllNulFree(q.refs[j].identity)
    ensures Build(codec, p, input).nodes[i + 1].id == Build(codec, q, input').nodes[j + 1].id <==>
            Trimmed(p.refs[i].identity) == Trimmed(q.refs[j].identity)
  {
    RawIdsAgree(codec, hash, RawEvidence, p.refs[i].identity, q.refs[j].identity);
    RawAt(codec, p, input, i);
    RawAt(codec, q, input', j);
  }

  lemma RawAt(codec: Codec, p: Proposal, input: AdmissionInput, i: nat)
    requires SourceBackedInput(p, input) && i < |p.refs|
    ensures Build(codec, p, input).nodes[i + 1].id ==
            codec.stableId("canon-node", [KindName(RawEvidence)] + p.refs[i].identity)
  {
  }

  lemma RawIdsAgree(codec: Codec, hash: string -> string, kind: NodeKind, a: seq<string>, b: seq<string>)
    requires Hashed(codec, hash) && AllNulFree(a) && AllNulFree(b)
    ensures codec.stableId("canon-node", [KindName(kind)] + a) ==
            codec.stableId("canon-node", [KindName(kind)] + b) <==>
            Trimmed(a) == Trimmed(b)
  {
    KindNames(kind);
    IdsAgree(codec, hash, "canon-node", [KindName(kind)] + a, [KindName(kind)] + b);
    TrimmedTail(KindName(kind), a, b);
  }

  /** The id is that of the edge's own ends and relation. */
  ghost predicate NamedByEnds(codec: Codec, e: Edge) {
    e.id == codec.stableId("canon-edge", [e.from, e.to, RelationName(e.relation)])
  }

  lemma BuiltEdgesNamed(codec: Codec, p: Proposal, input: AdmissionInput, i: nat)
    requires Buildable(p, input) && i < |Build(codec, p, input).edges|
    ensures NamedByEnds(codec, Build(codec, p, input).edges[i])
  {
  }

  /** Two edges share an id exactly when they join the same ends by the same relation. */
  lemma EdgeIdsIdentify(codec: Codec, hash: string -> string, e: Edge, e': Edge)
    requires Hashed(codec, hash) && NamedByEnds(codec, e) && NamedByEnds(codec, e')
    requires NulFree(e.from) && NulFree(e.to) && NulFree(e'.from) && NulFree(e'.to)
    ensures e.id == e'.id <==>
            TrimSpace(e.from) == TrimSpace(e'.from) && TrimSpace(e.to) == TrimSpace(e'.to) && e.relation == e'.relation
  {
    RelationNames(e.relation);
    RelationNames(e'.relation);
    RelationNamesDiffer(e.relation, e'.relation);
    var r, r' := RelationName(e.relation), RelationName(e'.relation);
    IdsAgree(codec, hash, "canon-edge", [e.from, e.to, r], [e'.from, e'.to, r']);
    TrimmedThree(e.from, e.to, r, e'.from, e'.to, r');
  }

  /** The hashed parts of a node id start with its kind. */
  ghost predicate NamedByKind(codec: Codec, n: Node) {
    exists rest :: n.id == codec.stableId("canon-node", [KindName(n.body.kind)] + rest)
  }

  lemma ClaimNamed(codec: Codec, p: Proposal)
    ensures NamedByKind(codec, ClaimNode(codec, p))
  {
    var rest := [p.statement, Encoded(codec, p)];
    assert [KindName(SourceClaim)] + rest == [KindName(SourceClaim), p.statement, Encoded(codec, p)];
  }

  lemma RawNamed(codec: Codec, p: Proposal, ref: SourceRef)
    ensures NamedByKind(codec, RawEvidenceNode(codec, p, ref))
  {
  }

  lemma DerivedNamed(codec: Codec, p: Proposal, kind: NodeKind, parents: seq<Id>, d: DerivationInput)
    ensures NamedByKind(codec, DerivedNode(codec, p, kind, parents, d))
  {
    var parts := IdentityOf(p, kind, parents, d).Parts();
    assert parts == [KindName(kind)] + parts[1..];
  }

  lemma BuiltNodesNamed(codec: Codec, p: Proposal, input: AdmissionInput, i: nat)
    requires Buildable(p, input) && i < |Build(codec, p, input).nodes|
    ensures NamedByKind(codec, Build(codec, p, input).nodes[i])
  {
    if input.candidate.Some? {
      DerivedNamed(codec, p, Candidate, SortBy(Trimmed(input.candidate.value.parents), SelfKey), input.candidate.value);
    } else if input.derivation.Some? {
      DerivedNamed(codec, p, DerivedClaim, SortBy(Trimmed(input.derivation.value.parents), SelfKey),
                   input.derivation.value);
    } else if i == 0 {
      ClaimNamed(codec, p);
    } else {
      RawNamed(codec, p, p.refs[i - 1]);
    }
  }

  /** Nodes of different kinds never share an id. */
  lemma KindsApart(codec: Codec, hash: string -> string, n: Node, n': Node)
    requires Hashed(codec, hash) && NamedByKind(codec, n) && NamedByKind(codec, n') && n.id == n'.id
    ensures n.body.kind == n'.body.kind
  {
    var rest :| n.id == codec.stableId("canon-node", [KindName(n.body.kind)] + rest);
    var rest' :| n'.id == codec.stableId("canon-node", [KindName(n'.body.kind)] + rest');
    var k, k' := KindName(n.body.kind), KindName(n'.body.kind);
    StableIdsAgree(hash, "canon-node", [k] + rest, [k'] + rest');
    KindNames(n.body.kind);
    KindNames(n'.body.kind);
    assert ([k] + rest)[1..] == rest && ([k'] + rest')[1..] == rest';
    PairKeyInjective(k, Frame(rest), k', Frame(rest'));
    KindNamesDiffer(n.body.kind, n'.body.kind);
  }
}
