/**
 The complete check of a recursive AND ancestor cut: every record of the artifact is
 matched against the admitted cut and against every other record, so that an accepted
 basis covers exactly the closure of its root.
 */
module RecursiveClosure {
  import opened Outcomes
  import opened Ordering
  import opened Evidence
  import opened AdmittedCuts
  import opened ClosureHeight

  /** A source review, reduced to the claim it reviews and its remaining content. */
  datatype SourceLeaf = SourceLeaf(specificationNodeId: Id, body: string)

  datatype DerivationRule = DerivationRule(nodeId: Id, derivationId: Id, ruleStatement: string)

  datatype RecursiveBasis = RecursiveBasis(
    contractVersion: string, id: string, admittedCutId: string, rootNodeId: Id,
    ancestors: Artifact, sourceLeaves: seq<SourceLeaf>, rules: seq<DerivationRule>)

  /** The computations the validator takes from elsewhere: digests, the source-review check and encoded sizes. */
  datatype Env = Env(
    digest: Payload -> string, excerptHash: string -> string, cutId: AdmittedCut -> string,
    leafValid: (AdmittedCut, SourceLeaf) -> bool, encodedSize: RecursiveBasis -> nat)

  datatype ReviewError = Invalid | EndpointMissing

  function LeafNode(l: SourceLeaf): string { l.specificationNodeId }
  function RuleNode(r: DerivationRule): string { r.nodeId }

  // ----- set equality by counting -----

  ghost predicate SameMembers(a: seq<string>, b: seq<string>) {
    forall x :: x in a <==> x in b
  }

  /** Correct as set equality exactly because the derivation's parents never repeat. */
  method RecursiveSameSet(a: seq<string>, b: seq<string>) returns (same: bool)
    requires NoDuplicates(b)
    ensures same <==> SameMembers(a, b) && NoDuplicates(a)
  {
    NoDuplicatesSize(a);
    NoDuplicatesSize(b);
    if |a| != |b| {
      assert SameMembers(a, b) ==> Elements(a) == Elements(b);
      return false;
    }
    var seen := {};
    for i := 0 to |a|
      invariant seen == Elements(a[..i]) && NoDuplicates(a[..i])
    {
      assert a[..i + 1] == a[..i] + [a[i]];
      if a[i] in seen {
        return false;
      }
      seen := seen + {a[i]};
    }
    assert a[..|a|] == a;
    for i := 0 to |b|
      invariant forall k :: 0 <= k < i ==> b[k] in seen
    {
      if b[i] !in seen {
        assert b[i] in b && b[i] !in a;
        return false;
      }
    }
    assert Elements(b) <= seen;
    assert Elements(b) == Elements(a) by { SameSizeSubset(Elements(b), Elements(a)); }
    assert forall x :: x in a <==> x in Elements(a);
    assert forall x :: x in b <==> x in Elements(b);
    return true;
  }

  // ----- record matching -----

  predicate SameProducer(p: Provenance, d: Derivation) {
    p.methodName == d.methodName && p.producer == d.producer && p.traceRef == d.traceRef
  }

  /** The admitted specification says what the native node says. */
  predicate SpecificationMatches(env: Env, cut: AdmittedCut, a: Artifact, n: CanonicalNode) {
    && n.id in Specifications(cut) && n.payloadRef in PayloadIndex(a)
    && var spec, p := Specifications(cut)[n.id], PayloadIndex(a)[n.payloadRef];
       spec.nodeKind == n.kind && spec.claimText == p.claim && spec.claimHash == env.excerptHash(p.claim)
  }

  /** A derived node is the one its derivation and provenance describe. */
  ghost predicate DerivedMatches(cut: AdmittedCut, a: Artifact, n: CanonicalNode) {
    && n.id in Specifications(cut) && n.payloadRef in PayloadIndex(a)
    && n.id in DerivationIndex(a) && DerivationIndex(a)[n.id].provenanceRef in ProvenanceIndex(a)
    && var spec, p, d := Specifications(cut)[n.id], PayloadIndex(a)[n.payloadRef], DerivationIndex(a)[n.id];
       var prov := ProvenanceIndex(a)[d.provenanceRef];
       && spec.derivationId == d.id && spec.sourceTitle == p.title && spec.sourceLocation == p.source
       && n.provenanceRef == d.provenanceRef && SameProducer(prov, d)
       && SameMembers(prov.originRefs, d.parents) && NoDuplicates(prov.originRefs)
  }

  ghost predicate NodeMatches(env: Env, cut: AdmittedCut, a: Artifact, n: CanonicalNode) {
    && (n.kind == DerivedClaim || n.kind == SourceClaim)
    && SpecificationMatches(env, cut, a, n)
    && (n.kind == DerivedClaim ==> DerivedMatches(cut, a, n))
  }

  predicate EdgeMatches(a: Artifact, e: CanonicalEdge) {
    && e.relation == DerivedFrom && EdgeDeclared(e, DerivationIndex(a)) && e.provenanceRef in ProvenanceIndex(a)
    && var p := ProvenanceIndex(a)[e.provenanceRef];
       p.originRefs == [e.from, e.to] && SameProducer(p, DerivationIndex(a)[e.to])
  }

  function EdgePair(e: CanonicalEdge): (Id, Id) { (e.from, e.to) }

  predicate RuleMatches(a: Artifact, r: DerivationRule) {
    r.nodeId in DerivationIndex(a) && DerivationIndex(a)[r.nodeId].id == r.derivationId
  }

  predicate IsSourceNode(a: Artifact, id: Id) {
    id in NodeIndex(a) && NodeIndex(a)[id].kind == SourceClaim
  }

  function ClosureGraph(a: Artifact): Graph {
    Graph(map id | id in NodeIndex(a) :: NodeIndex(a)[id].kind,
          map id | id in DerivationIndex(a) :: DerivationIndex(a)[id].parents)
  }

  // ----- sidecar records -----

  ghost predicate PayloadUsed(a: Artifact, id: Id) {
    exists n :: n in a.nodes && n.payloadRef == id
  }

  ghost predicate ProvenanceUsed(a: Artifact, id: Id) {
    (exists n :: n in a.nodes && n.provenanceRef == id) || (exists e :: e in a.edges && e.provenanceRef == id)
  }

  ghost predicate TemporalUsed(a: Artifact, id: Id) {
    exists n :: n in a.nodes && n.temporalRef == id
  }

  ghost predicate IntegrityUsed(a: Artifact, id: Id) {
    exists n :: n in a.nodes && n.integrityRef == id
  }

  ghost predicate PayloadsUsed(a: Artifact) {
    forall p :: p in a.payloads ==> PayloadUsed(a, p.id)
  }

  ghost predicate AllProvenanceUsed(a: Artifact) {
    forall p :: p in a.provenance ==> ProvenanceUsed(a, p.id)
  }

  ghost predicate AllTemporalUsed(a: Artifact) {
    forall t :: t in a.temporal ==> TemporalUsed(a, t.id)
  }

  ghost predicate AllIntegrityUsed(a: Artifact) {
    forall i :: i in a.integrity ==> IntegrityUsed(a, i.id)
  }

  ghost predicate NoPadding(a: Artifact) {
    PayloadsUsed(a) && AllProvenanceUsed(a) && AllTemporalUsed(a) && AllIntegrityUsed(a)
  }

  // ----- what an accepted basis is -----

  ghost predicate NodesMatch(env: Env, cut: AdmittedCut, a: Artifact) {
    forall n :: n in a.nodes ==> NodeMatches(env, cut, a, n)
  }

  ghost predicate RootDerived(a: Artifact, root: Id) {
    root in NodeIndex(a) && NodeIndex(a)[root].kind == DerivedClaim
  }

  ghost predicate EdgesMatch(a: Artifact) {
    DistinctKeys(a.edges, EdgePair) && forall e :: e in a.edges ==> EdgeMatches(a, e)
  }

  ghost predicate RulesCover(a: Artifact, rules: seq<DerivationRule>) {
    && DistinctKeys(rules, RuleNode)
    && (forall r :: r in rules ==> RuleMatches(a, r))
    && (forall d :: d in a.derivations ==> exists r :: r in rules && r.nodeId == d.nodeId)
  }

  ghost predicate LeavesCover(env: Env, cut: AdmittedCut, a: Artifact, leaves: seq<SourceLeaf>) {
    && DistinctKeys(leaves, LeafNode)
    && (forall l :: l in leaves ==> IsSourceNode(a, l.specificationNodeId) && env.leafValid(cut, l))
    && (forall n :: n in a.nodes && n.kind == SourceClaim ==> exists l :: l in leaves && l.specificationNodeId == n.id)
  }

  ghost predicate ClosureAccepted(env: Env, cut: AdmittedCut, b: RecursiveBasis) {
    var a := b.ancestors;
    && ValidArtifact(a, env.digest)
    && NodesMatch(env, cut, a)
    && RootDerived(a, b.rootNodeId)
    && EdgesMatch(a)
    && NoPadding(a)
    && ClosureGraph(a).Acceptable(b.rootNodeId)
    && RulesCover(a, b.rules)
    && LeavesCover(env, cut, a, b.sourceLeaves)
  }

  // ----- the validator -----

  method CheckDerivedNode(cut: AdmittedCut, a: Artifact, n: CanonicalNode) returns (ok: bool)
    requires n.id in Specifications(cut)
    requires n.payloadRef in PayloadIndex(a) && n.id in DerivationIndex(a)
    requires DerivationIndex(a)[n.id].provenanceRef in ProvenanceIndex(a)
    requires NoDuplicates(DerivationIndex(a)[n.id].parents)
    ensures ok <==> DerivedMatches(cut, a, n)
  {
    var spec, p, d := Specifications(cut)[n.id], PayloadIndex(a)[n.payloadRef], DerivationIndex(a)[n.id];
    var prov := ProvenanceIndex(a)[d.provenanceRef];
    var sameParents := RecursiveSameSet(prov.originRefs, d.parents);
    return
      spec.derivationId == d.id && spec.sourceTitle == p.title && spec.sourceLocation == p.source &&
      n.provenanceRef == d.provenanceRef && sameParents && SameProducer(prov, d);
  }

  method CheckNode(env: Env, cut: AdmittedCut, a: Artifact, n: CanonicalNode) returns (ok: bool)
    requires ValidArtifact(a, env.digest) && CanonicalCut(cut) && n in a.nodes
    ensures ok <==> NodeMatches(env, cut, a, n)
  {
    if n.kind != DerivedClaim && n.kind != SourceClaim {
      return false;
    }
    var spec := FindSpecification(cut, n.id);
    if spec.None? || !SpecificationMatches(env, cut, a, n) {
      return false;
    }
    if n.kind == DerivedClaim {
      DerivationOf(a, env.digest, n);
      ok := CheckDerivedNode(cut, a, n);
    } else {
      ok := true;
    }
  }

  /** References collected from nodes: payload, provenance, temporal and integrity ids, and source leaves. */
  datatype Used = Used(payload: set<Id>, provenance: set<Id>, temporal: set<Id>, integrity: set<Id>, leaves: set<Id>)

  function PayloadRef(n: CanonicalNode): Id { n.payloadRef }
  function ProvenanceRef(n: CanonicalNode): Id { n.provenanceRef }
  function TemporalRef(n: CanonicalNode): Id { n.temporalRef }
  function IntegrityRef(n: CanonicalNode): Id { n.integrityRef }
  function EdgeProvenanceRef(e: CanonicalEdge): Id { e.provenanceRef }

  function SourceIds(nodes: seq<CanonicalNode>): set<Id> {
    set n | n in nodes && n.kind == SourceClaim :: n.id
  }

  const NOTHING_USED := Used({}, {}, {}, {}, {})

  function AddUsed(u: Used, n: CanonicalNode): Used {
    Used(u.payload + {n.payloadRef}, u.provenance + {n.provenanceRef}, u.temporal + {n.temporalRef},
         u.integrity + {n.integrityRef}, if n.kind == SourceClaim then u.leaves + {n.id} else u.leaves)
  }

  function UsedBy(nodes: seq<CanonicalNode>): Used {
    if nodes == [] then NOTHING_USED else AddUsed(UsedBy(nodes[..|nodes| - 1]), nodes[|nodes| - 1])
  }

  lemma {:induction false} UsedByRefs(nodes: seq<CanonicalNode>)
    ensures UsedBy(nodes) == Used(Refs(nodes, PayloadRef), Refs(nodes, ProvenanceRef), Refs(nodes, TemporalRef),
                                  Refs(nodes, IntegrityRef), SourceIds(nodes))
  {
    if nodes != [] {
      var last := |nodes| - 1;
      UsedByRefs(nodes[..last]);
      assert nodes[..last + 1] == nodes;
      RefsStep(nodes, last, PayloadRef);
      RefsStep(nodes, last, ProvenanceRef);
      RefsStep(nodes, last, TemporalRef);
      RefsStep(nodes, last, IntegrityRef);
      SourceIdsStep(nodes, last);
    }
  }

  lemma SourceIdsStep(nodes: seq<CanonicalNode>, i: nat)
    requires i < |nodes|
    ensures SourceIds(nodes[..i + 1]) ==
            SourceIds(nodes[..i]) + if nodes[i].kind == SourceClaim then {nodes[i].id} else {}
  {
    assert nodes[..i + 1] == nodes[..i] + [nodes[i]];
  }

  method CheckNodes(env: Env, cut: AdmittedCut, a: Artifact) returns (used: Option<Used>)
    requires ValidArtifact(a, env.digest) && CanonicalCut(cut)
    ensures used.Some? <==> NodesMatch(env, cut, a)
    ensures used.Some? ==> used.value == UsedBy(a.nodes)
  {
    var u := NOTHING_USED;
    for i := 0 to |a.nodes|
      invariant forall k :: 0 <= k < i ==> NodeMatches(env, cut, a, a.nodes[k])
      invariant u == UsedBy(a.nodes[..i])
    {
      var n := a.nodes[i];
      var ok := CheckNode(env, cut, a, n);
      if !ok {
        return None;
      }
      assert a.nodes[..i + 1][..i] == a.nodes[..i];
      u := AddUsed(u, n);
    }
    assert a.nodes[..|a.nodes|] == a.nodes;
    return Some(u);
  }

  lemma DerivationOf(a: Artifact, digest: Payload -> string, n: CanonicalNode)
    requires ValidArtifact(a, digest) && n in a.nodes && n.kind == DerivedClaim
    ensures n.payloadRef in PayloadIndex(a) && n.id in DerivationIndex(a)
    ensures DerivationIndex(a)[n.id] in a.derivations && DerivationIndex(a)[n.id].nodeId == n.id
    ensures DerivationIndex(a)[n.id].provenanceRef in ProvenanceIndex(a)
    ensures NoDuplicates(DerivationIndex(a)[n.id].parents)
  {
    IndexKeys(a.derivations, DerivationNode);
  }

  method CheckEdges(a: Artifact, usedByNodes: set<Id>) returns (used: Option<set<Id>>)
    ensures used.Some? <==> EdgesMatch(a)
    ensures used.Some? ==> used.value == usedByNodes + Refs(a.edges, EdgeProvenanceRef)
  {
    var seenPairs := CollectDistinct(a.edges, EdgePair, e => EdgeMatches(a, e));
    if seenPairs.None? {
      return None;
    }
    var u := usedByNodes;
    for i := 0 to |a.edges|
      invariant u == usedByNodes + Refs(a.edges[..i], EdgeProvenanceRef)
    {
      RefsStep(a.edges, i, EdgeProvenanceRef);
      u := u + {a.edges[i].provenanceRef};
    }
    assert a.edges[..|a.edges|] == a.edges;
    return Some(u);
  }

  /** One count comparison per sidecar list decides whether any record is unrelated padding. */
  lemma SidecarCounting<T>(items: seq<T>, key: T -> string, used: set<Id>)
    requires DistinctKeys(items, key)
    requires forall k :: k in used ==> k in Index(items, key)
    ensures |used| == |items| <==> forall x :: x in items ==> key(x) in used
  {
    IndexKeys(items, key);
    DistinctKeysAsKeys(items, key);
    forall k | k in used
      ensures k in Mapped(items, key)
    {
      assert key(Index(items, key)[k]) == k;
    }
    CountingCovers(used, Mapped(items, key));
  }

  lemma PayloadsByCounting(a: Artifact, digest: Payload -> string)
    requires ValidArtifact(a, digest)
    ensures |Refs(a.nodes, PayloadRef)| == |a.payloads| <==> PayloadsUsed(a)
  {
    RefsMembers(a.nodes, PayloadRef);
    SidecarCounting(a.payloads, PayloadId, Refs(a.nodes, PayloadRef));
    forall id
      ensures PayloadUsed(a, id) <==> id in Refs(a.nodes, PayloadRef)
    {
    }
  }

  lemma ProvenanceByCounting(a: Artifact, digest: Payload -> string)
    requires ValidArtifact(a, digest)
    ensures |Refs(a.nodes, ProvenanceRef) + Refs(a.edges, EdgeProvenanceRef)| == |a.provenance| <==>
            AllProvenanceUsed(a)
  {
    var used := Refs(a.nodes, ProvenanceRef) + Refs(a.edges, EdgeProvenanceRef);
    RefsMembers(a.nodes, ProvenanceRef);
    RefsMembers(a.edges, EdgeProvenanceRef);
    SidecarCounting(a.provenance, ProvenanceId, used);
    forall id
      ensures ProvenanceUsed(a, id) <==> id in used
    {
    }
  }

  lemma TemporalByCounting(a: Artifact, digest: Payload -> string)
    requires ValidArtifact(a, digest)
    ensures |Refs(a.nodes, TemporalRef)| == |a.temporal| <==> AllTemporalUsed(a)
  {
    RefsMembers(a.nodes, TemporalRef);
    SidecarCounting(a.temporal, TemporalId, Refs(a.nodes, TemporalRef));
    forall id
      ensures TemporalUsed(a, id) <==> id in Refs(a.nodes, TemporalRef)
    {
    }
  }

  lemma IntegrityByCounting(a: Artifact, digest: Payload -> string)
    requires ValidArtifact(a, digest)
    ensures |Refs(a.nodes, IntegrityRef)| == |a.integrity| <==> AllIntegrityUsed(a)
  {
    RefsMembers(a.nodes, IntegrityRef);
    SidecarCounting(a.integrity, IntegrityId, Refs(a.nodes, IntegrityRef));
    forall id
      ensures IntegrityUsed(a, id) <==> id in Refs(a.nodes, IntegrityRef)
    {
    }
  }

  method CheckSidecars(a: Artifact, digest: Payload -> string, used: Used, provenance: set<Id>) returns (ok: bool)
    requires ValidArtifact(a, digest) && used == UsedBy(a.nodes)
    requires provenance == used.provenance + Refs(a.edges, EdgeProvenanceRef)
    ensures ok <==> NoPadding(a)
  {
    UsedByRefs(a.nodes);
    PayloadsByCounting(a, digest);
    ProvenanceByCounting(a, digest);
    TemporalByCounting(a, digest);
    IntegrityByCounting(a, digest);
    return
      |used.payload| == |a.payloads| && |provenance| == |a.provenance| &&
      |used.temporal| == |a.temporal| && |used.integrity| == |a.integrity|;
  }

  method CheckRules(a: Artifact, rules: seq<DerivationRule>) returns (ok: bool)
    requires DistinctKeys(a.derivations, DerivationNode)
    ensures ok <==> RulesCover(a, rules)
  {
    var seen := CollectDistinct(rules, RuleNode, r => RuleMatches(a, r));
    if seen.None? {
      return false;
    }
    RulesByCounting(a, rules);
    return |seen.value| == |DerivationIndex(a)|;
  }

  lemma RulesByCounting(a: Artifact, rules: seq<DerivationRule>)
    requires DistinctKeys(a.derivations, DerivationNode) && forall r :: r in rules ==> RuleMatches(a, r)
    ensures |Refs(rules, RuleNode)| == |DerivationIndex(a)| <==>
            forall d :: d in a.derivations ==> exists r :: r in rules && r.nodeId == d.nodeId
  {
    RefsMembers(rules, RuleNode);
    SidecarCounting(a.derivations, DerivationNode, Refs(rules, RuleNode));
    IndexSize(a.derivations, DerivationNode);
    forall d
      ensures DerivationNode(d) in Refs(rules, RuleNode) <==> exists r :: r in rules && r.nodeId == d.nodeId
    {
      assert forall r :: r in rules ==> RuleNode(r) == r.nodeId;
    }
  }

  lemma IndexSize<T>(items: seq<T>, key: T -> string)
    requires DistinctKeys(items, key)
    ensures |Index(items, key)| == |items|
  {
    IndexKeys(items, key);
    SidecarCounting(items, key, Index(items, key).Keys);
  }

  method CheckLeaves(env: Env, cut: AdmittedCut, a: Artifact, leaves: seq<SourceLeaf>, sources: set<Id>)
    returns (ok: bool)
    requires DistinctKeys(a.nodes, NodeId) && sources == SourceIds(a.nodes)
    ensures ok <==> LeavesCover(env, cut, a, leaves)
  {
    SourceIdsMeaning(a);
    var seen := CollectDistinct(
      leaves, LeafNode, (l: SourceLeaf) => l.specificationNodeId in sources && env.leafValid(cut, l));
    if seen.None? {
      return false;
    }
    LeavesByCounting(a, leaves);
    return |seen.value| == |sources|;
  }

  lemma SourceIdsMeaning(a: Artifact)
    requires DistinctKeys(a.nodes, NodeId)
    ensures forall id :: id in SourceIds(a.nodes) <==> IsSourceNode(a, id)
  {
    IndexKeys(a.nodes, NodeId);
    forall id | id in SourceIds(a.nodes)
      ensures IsSourceNode(a, id)
    {
      var n :| n in a.nodes && n.kind == SourceClaim && n.id == id;
      assert NodeId(n) == id;
    }
    forall id | IsSourceNode(a, id)
      ensures id in SourceIds(a.nodes)
    {
      assert NodeIndex(a)[id].id == NodeId(NodeIndex(a)[id]);
    }
  }

  lemma LeavesByCounting(a: Artifact, leaves: seq<SourceLeaf>)
    requires forall l :: l in leaves ==> l.specificationNodeId in SourceIds(a.nodes)
    ensures |Refs(leaves, LeafNode)| == |SourceIds(a.nodes)| <==>
            forall n :: n in a.nodes && n.kind == SourceClaim ==>
              exists l :: l in leaves && l.specificationNodeId == n.id
  {
    var seen, sources := Refs(leaves, LeafNode), SourceIds(a.nodes);
    RefsMembers(leaves, LeafNode);
    assert forall l :: l in leaves ==> LeafNode(l) == l.specificationNodeId;
    assert seen <= sources;
    if |seen| == |sources| {
      SameSizeSubset(seen, sources);
    }
    forall id
      ensures id in seen <==> exists l :: l in leaves && l.specificationNodeId == id
    {
    }
    if forall n :: n in a.nodes && n.kind == SourceClaim ==> n.id in seen {
      assert sources <= seen;
      assert seen == sources;
    }
  }

  method ValidateRecursiveClosure(env: Env, cut: AdmittedCut, b: RecursiveBasis) returns (r: Option<ReviewError>)
    requires CanonicalCut(cut)
    ensures r.None? <==> ClosureAccepted(env, cut, b)
  {
    var a := b.ancestors;
    var valid := ValidateArtifact(a, env.digest);
    if !valid {
      return Some(Invalid);
    }
    var used := CheckNodes(env, cut, a);
    if used.None? {
      return Some(Invalid);
    }
    if b.rootNodeId !in NodeIndex(a) || NodeIndex(a)[b.rootNodeId].kind != DerivedClaim {
      return Some(EndpointMissing);
    }
    var provenance := CheckEdges(a, used.value.provenance);
    if provenance.None? {
      return Some(Invalid);
    }
    var noPadding := CheckSidecars(a, env.digest, used.value, provenance.value);
    if !noPadding {
      return Some(Invalid);
    }
    var height, _, _ := RecursiveClosureHeight(ClosureGraph(a), b.rootNodeId);
    if height.Some? {
      return Some(Invalid);
    }
    var rules := CheckRules(a, b.rules);
    if !rules {
      return Some(Invalid);
    }
    UsedByRefs(a.nodes);
    var leaves := CheckLeaves(env, cut, a, b.sourceLeaves, used.value.leaves);
    return if leaves then None else Some(Invalid);
  }

}
