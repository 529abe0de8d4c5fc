/**
 The earlier depth-one validator: one derivation whose parents are all source claims.
 It is refined by the recursive validator, and the two agree exactly on cuts with one
 derivation whose provenance lists the parents in their own order.
 */
module DepthOne {
  import opened Outcomes
  import opened Ordering
  import opened Evidence
  import opened AdmittedCuts
  import opened ClosureHeight
  import opened RecursiveClosure
  import opened ReviewBasis

  datatype DerivedBasis = DerivedBasis(
    contractVersion: string, id: string, admittedCutId: string, rootNodeId: Id, ancestors: Artifact,
    sourceLeaves: seq<SourceLeaf>, ruleStatement: string)

  function EdgeFrom(e: CanonicalEdge): Id { e.from }

  // ----- what the depth-one validator accepts -----

  predicate DepthOneNode(env: Env, cut: AdmittedCut, a: Artifact, d: Derivation, n: CanonicalNode) {
    && (if n.id == d.nodeId then n.kind == DerivedClaim && n.provenanceRef == d.provenanceRef
        else n.id in d.parents && n.kind == SourceClaim)
    && SpecificationMatches(env, cut, a, n)
    && (n.id == d.nodeId ==>
          && Specifications(cut)[n.id].sourceTitle == PayloadIndex(a)[n.payloadRef].title
          && Specifications(cut)[n.id].sourceLocation == PayloadIndex(a)[n.payloadRef].source)
  }

  predicate DepthOneEdge(a: Artifact, d: Derivation, e: CanonicalEdge) {
    && e.from in d.parents && e.to == d.nodeId && e.relation == DerivedFrom
    && e.provenanceRef in ProvenanceIndex(a)
    && ProvenanceIndex(a)[e.provenanceRef].originRefs == [e.from, d.nodeId]
    && SameProducer(ProvenanceIndex(a)[e.provenanceRef], d)
  }

  ghost predicate DepthOneShape(cut: AdmittedCut, b: DerivedBasis, d: Derivation) {
    var a := b.ancestors;
    && a.derivations == [d] && d.nodeId == b.rootNodeId
    && b.rootNodeId in Specifications(cut) && Specifications(cut)[b.rootNodeId].nodeKind == DerivedClaim
    && Specifications(cut)[b.rootNodeId].derivationId == d.id
    && |d.parents| == |b.sourceLeaves| && |a.nodes| == |d.parents| + 1 && |a.edges| == |d.parents|
    && b.rootNodeId !in d.parents
  }

  ghost predicate DepthOneRecords(env: Env, cut: AdmittedCut, b: DerivedBasis, d: Derivation) {
    var a := b.ancestors;
    && (forall n :: n in a.nodes ==> DepthOneNode(env, cut, a, d, n))
    && d.provenanceRef in ProvenanceIndex(a)
    && ProvenanceIndex(a)[d.provenanceRef].originRefs == d.parents
    && SameProducer(ProvenanceIndex(a)[d.provenanceRef], d)
    && DistinctKeys(a.edges, EdgeFrom) && (forall e :: e in a.edges ==> DepthOneEdge(a, d, e))
    && NoPadding(a)
    && DistinctKeys(b.sourceLeaves, LeafNode)
    && (forall l :: l in b.sourceLeaves ==> l.specificationNodeId in d.parents && env.leafValid(cut, l))
  }

  ghost predicate DepthOneAccepted(env: Env, cut: AdmittedCut, b: DerivedBasis) {
    && |b.ancestors.derivations| == 1
    && ValidArtifact(b.ancestors, env.digest)
    && DepthOneShape(cut, b, b.ancestors.derivations[0])
    && DepthOneRecords(env, cut, b, b.ancestors.derivations[0])
  }

  // ----- the validator -----

  method CheckDepthOneNodes(env: Env, cut: AdmittedCut, a: Artifact, d: Derivation) returns (used: Option<Used>)
    requires ValidArtifact(a, env.digest) && CanonicalCut(cut)
    ensures used.Some? <==> forall n :: n in a.nodes ==> DepthOneNode(env, cut, a, d, n)
    ensures used.Some? ==> used.value == UsedBy(a.nodes)
  {
    var u := NOTHING_USED;
    for i := 0 to |a.nodes|
      invariant forall k :: 0 <= k < i ==> DepthOneNode(env, cut, a, d, a.nodes[k])
      invariant u == UsedBy(a.nodes[..i])
    {
      var n := a.nodes[i];
      if !DepthOneNode(env, cut, a, d, n) {
        assert n in a.nodes;
        return None;
      }
      assert a.nodes[..i + 1][..i] == a.nodes[..i];
      u := AddUsed(u, n);
    }
    assert a.nodes[..|a.nodes|] == a.nodes;
    return Some(u);
  }

  method CheckDepthOneEdges(a: Artifact, d: Derivation, usedByNodes: set<Id>) returns (used: Option<set<Id>>)
    ensures used.Some? <==> DistinctKeys(a.edges, EdgeFrom) && forall e :: e in a.edges ==> DepthOneEdge(a, d, e)
    ensures used.Some? ==> used.value == usedByNodes + Refs(a.edges, EdgeProvenanceRef)
  {
    var edgeParents := CollectDistinct(a.edges, EdgeFrom, e => DepthOneEdge(a, d, e));
    if edgeParents.None? {
      return None;
    }
    var u := usedByNodes;
    for i := 0 to |a.edges|
      invariant u == usedByNodes + Refs(a.edges[..i], EdgeProvenanceRef)
    {
      RefsStep(a.edges, i, EdgeProvenanceRef);
      u := u + {a.edges[i].provenanceRef};
    }
    assert a.edges[..|a.edges|] == a.edges;
    return Some(u);
  }

  method ValidateDepthOne(env: Env, cut: AdmittedCut, b: DerivedBasis) returns (ok: bool)
    requires CanonicalCut(cut)
    ensures ok <==> DepthOneAccepted(env, cut, b)
  {
    var a := b.ancestors;
    if |a.derivations| != 1 {
      return false;
    }
    var root := FindSpecification(cut, b.rootNodeId);
    if root.None? || root.value.nodeKind != DerivedClaim {
      return false;
    }
    var valid := ValidateArtifact(a, env.digest);
    if !valid {
      return false;
    }
    var d := a.derivations[0];
    if d.nodeId != b.rootNodeId || d.id != root.value.derivationId || |d.parents| != |b.sourceLeaves| ||
       |a.nodes| != |d.parents| + 1 || |a.edges| != |d.parents| || b.rootNodeId in d.parents {
      return false;
    }
    ok := CheckDepthOneRecords(env, cut, b, d);
  }

  method CheckDepthOneRecords(env: Env, cut: AdmittedCut, b: DerivedBasis, d: Derivation) returns (ok: bool)
    requires ValidArtifact(b.ancestors, env.digest) && CanonicalCut(cut)
    ensures ok <==> DepthOneRecords(env, cut, b, d)
  {
    var a := b.ancestors;
    var used := CheckDepthOneNodes(env, cut, a, d);
    if used.None? || d.provenanceRef !in ProvenanceIndex(a) {
      return false;
    }
    var prov := ProvenanceIndex(a)[d.provenanceRef];
    if prov.originRefs != d.parents || !SameProducer(prov, d) {
      return false;
    }
    var provenance := CheckDepthOneEdges(a, d, used.value.provenance);
    if provenance.None? {
      return false;
    }
    var noPadding := CheckSidecars(a, env.digest, used.value, provenance.value);
    if !noPadding {
      return false;
    }
    var seen := CollectDistinct(
      b.sourceLeaves, LeafNode, (l: SourceLeaf) => l.specificationNodeId in d.parents && env.leafValid(cut, l));
    return seen.Some?;
  }

  // ----- refinement -----

  /** The same cut, presented to the recursive validator with its single rule. */
  function AsRecursive(b: DerivedBasis, derivationId: Id): RecursiveBasis {
    RecursiveBasis("", "", b.admittedCutId, b.rootNodeId, b.ancestors, b.sourceLeaves,
                   [DerivationRule(b.rootNodeId, derivationId, b.ruleStatement)])
  }

  lemma SingleDerivation(a: Artifact, d: Derivation)
    requires a.derivations == [d]
    ensures DerivationIndex(a) == map[d.nodeId := d]
  {
    assert a.derivations[..0] == [];
    assert Index([], DerivationNode) == map[];
  }

  /** Distinct ids drawn from a set of the same size are all of it. */
  lemma DistinctFill<T>(s: seq<T>, key: T -> Id, ids: set<Id>)
    requires DistinctKeys(s, key) && |s| == |ids|
    requires forall x :: x in s ==> key(x) in ids
    ensures Refs(s, key) == ids
  {
    DistinctKeysAsKeys(s, key);
    SameSizeSubset(Refs(s, key), ids);
  }

  /** The root and its parents, all source claims, are all the nodes there are. */
  ghost predicate RootOverSources(a: Artifact, d: Derivation) {
    && NodeIndex(a).Keys == {d.nodeId} + Elements(d.parents)
    && d.nodeId !in d.parents && NodeIndex(a)[d.nodeId].kind == DerivedClaim
    && forall p :: p in d.parents ==> p in NodeIndex(a) && NodeIndex(a)[p].kind == SourceClaim
  }

  lemma DepthOneNodeIds(env: Env, cut: AdmittedCut, a: Artifact, d: Derivation)
    requires DistinctKeys(a.nodes, NodeId) && NoDuplicates(d.parents) && d.nodeId !in d.parents
    requires |a.nodes| == |d.parents| + 1 && forall n :: n in a.nodes ==> DepthOneNode(env, cut, a, d, n)
    ensures RootOverSources(a, d)
  {
    NoDuplicatesSize(d.parents);
    NodeLookup(a);
    IndexSize(a.nodes, NodeId);
    var ids := {d.nodeId} + Elements(d.parents);
    assert |ids| == |a.nodes|;
    forall id | id in NodeIndex(a)
      ensures id in ids
    {
      assert DepthOneNode(env, cut, a, d, NodeIndex(a)[id]);
    }
    SameSizeSubset(NodeIndex(a).Keys, ids);
    forall id | id in ids
      ensures DepthOneNode(env, cut, a, d, NodeIndex(a)[id])
    {
    }
  }

  lemma DepthOneGraph(a: Artifact, d: Derivation)
    requires a.derivations == [d] && RootOverSources(a, d)
    ensures ClosureGraph(a).Acceptable(d.nodeId)
  {
    var root := d.nodeId;
    var g := ClosureGraph(a);
    SingleDerivation(a, d);
    var heights: map<Id, nat> := map id | id in NodeIndex(a) :: if id == root then 1 else 0;
    assert g.Parents(root) == d.parents && g.Inner(root);
    forall x | x in heights
      ensures g.RankedAt(heights, x)
    {
      assert x != root ==> x in d.parents && !g.Inner(x);
    }
    RankedCertifies(g, heights, root);
    forall x | x in g.nodes
      ensures g.Reached(root, x)
    {
      if x == root {
        assert g.ChainTo(root, [root], root);
      } else {
        assert g.Step(root, x) && [root, x][1..] == [x];
        assert g.ChainTo(root, [root, x], x);
      }
    }
  }

  lemma DepthOneNodesMatch(env: Env, cut: AdmittedCut, b: DerivedBasis, d: Derivation)
    requires ValidArtifact(b.ancestors, env.digest)
    requires DepthOneShape(cut, b, d) && DepthOneRecords(env, cut, b, d)
    ensures NodesMatch(env, cut, b.ancestors)
  {
    var a := b.ancestors;
    SingleDerivation(a, d);
    forall n | n in a.nodes
      ensures NodeMatches(env, cut, a, n)
    {
      assert DepthOneNode(env, cut, a, d, n);
      assert n.kind == DerivedClaim ==> n.id == d.nodeId;
      assert d in a.derivations;
    }
  }

  lemma DepthOneLeaves(env: Env, cut: AdmittedCut, a: Artifact, d: Derivation, leaves: seq<SourceLeaf>)
    requires DistinctKeys(a.nodes, NodeId) && RootOverSources(a, d) && NoDuplicates(d.parents)
    requires |leaves| == |d.parents| && DistinctKeys(leaves, LeafNode)
    requires forall l :: l in leaves ==> l.specificationNodeId in d.parents && env.leafValid(cut, l)
    ensures LeavesCover(env, cut, a, leaves)
  {
    NoDuplicatesSize(d.parents);
    NodeLookup(a);
    DistinctFill(leaves, LeafNode, Elements(d.parents));
    RefsMembers(leaves, LeafNode);
    forall n | n in a.nodes && n.kind == SourceClaim
      ensures exists l :: l in leaves && l.specificationNodeId == n.id
    {
      assert n.id in Refs(leaves, LeafNode);
      var l :| l in leaves && LeafNode(l) == n.id;
    }
  }

  lemma DepthOneEdges(a: Artifact, d: Derivation)
    requires d.nodeId in DerivationIndex(a) && DerivationIndex(a)[d.nodeId] == d
    requires DistinctKeys(a.edges, EdgeFrom) && forall e :: e in a.edges ==> DepthOneEdge(a, d, e)
    ensures EdgesMatch(a)
  {
    forall e | e in a.edges
      ensures EdgeMatches(a, e)
    {
      assert DepthOneEdge(a, d, e);
    }
    forall i, j | 0 <= i < j < |a.edges|
      ensures EdgePair(a.edges[i]) != EdgePair(a.edges[j])
    {
      assert EdgeFrom(a.edges[i]) != EdgeFrom(a.edges[j]);
    }
  }

  /** Whatever the depth-one validator accepts, the recursive validator accepts with one rule. */
  lemma DepthOneRefined(env: Env, cut: AdmittedCut, b: DerivedBasis)
    requires DepthOneAccepted(env, cut, b)
    ensures ClosureAccepted(env, cut, AsRecursive(b, b.ancestors.derivations[0].id))
  {
    var a, d := b.ancestors, b.ancestors.derivations[0];
    var rules := AsRecursive(b, d.id).rules;
    SingleDerivation(a, d);
    assert d in a.derivations;
    DepthOneNodesMatch(env, cut, b, d);
    DepthOneNodeIds(env, cut, a, d);
    DepthOneEdges(a, d);
    DepthOneGraph(a, d);
    assert rules[0] in rules && RuleMatches(a, rules[0]);
    DepthOneLeaves(env, cut, a, d, b.sourceLeaves);
  }

  // ----- the converse -----

  lemma OneStepReach(g: Graph, root: Id, x: Id)
    requires g.Reached(root, x) && forall y :: y in g.Parents(root) ==> !g.Inner(y)
    ensures x == root || x in g.Parents(root)
  {
    var p :| g.ChainTo(root, p, x);
    if |p| > 1 {
      var q := p[1..];
      assert g.Step(root, p[1]) && g.Chain(q) && q[0] == p[1];
      assert !g.Inner(q[0]);
      assert |q| == 1;
    }
  }

  lemma SelfParentIsCycle(g: Graph, x: Id)
    requires g.Inner(x)
    ensures x in g.Parents(x) ==> g.HasCycle(x)
  {
    if x in g.Parents(x) {
      assert g.Step(x, x) && [x, x][1..] == [x];
      assert g.ChainTo(x, [x], x) && g.ChainTo(x, [x, x], x);
    }
  }

  lemma ParentsAreSources(a: Artifact, root: Id, d: Derivation)
    requires DistinctKeys(a.nodes, NodeId) && a.derivations == [d] && RootDerived(a, root)
    requires forall n :: n in a.nodes ==> n.kind == SourceClaim || (n.kind == DerivedClaim && n.id == d.nodeId)
    requires forall p :: p in d.parents ==> p in NodeIndex(a)
    requires ClosureGraph(a).Acceptable(root)
    ensures d.nodeId == root && RootOverSources(a, d)
  {
    var g := ClosureGraph(a);
    SingleDerivation(a, d);
    NodeLookup(a);
    assert g.Parents(root) == d.parents && g.Inner(root);
    SelfParentIsCycle(g, root);
    assert root !in d.parents;
    forall x | x in NodeIndex(a)
      ensures x == root || x in d.parents
    {
      assert x in g.nodes;
      OneStepReach(g, root, x);
    }
  }

  lemma RecursiveParentsAreSources(env: Env, cut: AdmittedCut, b: RecursiveBasis, d: Derivation)
    requires ClosureAccepted(env, cut, b) && b.ancestors.derivations == [d]
    ensures d.nodeId == b.rootNodeId && NoDuplicates(d.parents) && RootOverSources(b.ancestors, d)
  {
    var a := b.ancestors;
    SingleDerivation(a, d);
    assert d in a.derivations;
    forall n | n in a.nodes
      ensures n.kind == SourceClaim || (n.kind == DerivedClaim && n.id == d.nodeId)
    {
      assert NodeMatches(env, cut, a, n);
    }
    ParentsAreSources(a, b.rootNodeId, d);
  }

  lemma ConverseCounts(env: Env, cut: AdmittedCut, b: DerivedBasis, d: Derivation)
    requires ClosureAccepted(env, cut, AsRecursive(b, d.id)) && b.ancestors.derivations == [d]
    requires forall n :: n in b.ancestors.nodes ==> NulFree(n.id)
    ensures |b.ancestors.nodes| == |d.parents| + 1 && |b.ancestors.edges| == |d.parents|
    ensures |b.sourceLeaves| == |d.parents| && DistinctKeys(b.ancestors.edges, EdgeFrom)
    ensures forall l :: l in b.sourceLeaves ==> l.specificationNodeId in d.parents
  {
    var a := b.ancestors;
    RecursiveParentsAreSources(env, cut, AsRecursive(b, d.id), d);
    NoDuplicatesSize(d.parents);
    IndexSize(a.nodes, NodeId);
    assert |{d.nodeId} + Elements(d.parents)| == |d.parents| + 1;
    assert d in a.derivations;
    forall p | p in d.parents
      ensures exists e :: e in a.edges && EdgePair(e) == (p, d.nodeId)
    {
      ParentHasEdge(a, env.digest, d, p);
    }
    ConverseEdges(a, d);
    ConverseLeaves(env, cut, a, d, b.sourceLeaves);
  }

  lemma ConverseEdges(a: Artifact, d: Derivation)
    requires EdgesMatch(a) && a.derivations == [d] && NoDuplicates(d.parents)
    requires forall p :: p in d.parents ==> exists e :: e in a.edges && EdgePair(e) == (p, d.nodeId)
    ensures |a.edges| == |d.parents| && DistinctKeys(a.edges, EdgeFrom)
  {
    SingleDerivation(a, d);
    NoDuplicatesSize(d.parents);
    forall e | e in a.edges
      ensures e.to == d.nodeId && e.from in d.parents
    {
      assert EdgeMatches(a, e);
    }
    forall i, j | 0 <= i < j < |a.edges|
      ensures EdgeFrom(a.edges[i]) != EdgeFrom(a.edges[j])
    {
      assert EdgePair(a.edges[i]) != EdgePair(a.edges[j]);
    }
    DistinctKeysAsKeys(a.edges, EdgeFrom);
    RefsMembers(a.edges, EdgeFrom);
    forall p | p in d.parents
      ensures p in Refs(a.edges, EdgeFrom)
    {
      var e :| e in a.edges && EdgePair(e) == (p, d.nodeId);
      assert EdgeFrom(e) == p;
    }
    assert Refs(a.edges, EdgeFrom) == Elements(d.parents);
  }

  lemma ConverseLeaves(env: Env, cut: AdmittedCut, a: Artifact, d: Derivation, leaves: seq<SourceLeaf>)
    requires DistinctKeys(a.nodes, NodeId) && LeavesCover(env, cut, a, leaves)
    requires NoDuplicates(d.parents) && RootOverSources(a, d)
    ensures |leaves| == |d.parents|
    ensures forall l :: l in leaves ==> l.specificationNodeId in d.parents
  {
    LeavesAreParents(env, cut, a, d, leaves);
    forall p | p in d.parents
      ensures exists l :: l in leaves && LeafNode(l) == p
    {
      NodeLookup(a);
      var l :| l in leaves && l.specificationNodeId == NodeIndex(a)[p].id;
      assert LeafNode(l) == p;
    }
    SameKeysSameSize(leaves, d.parents);
  }

  lemma SameKeysSameSize(leaves: seq<SourceLeaf>, parents: seq<Id>)
    requires DistinctKeys(leaves, LeafNode) && NoDuplicates(parents)
    requires forall l :: l in leaves ==> LeafNode(l) in Elements(parents)
    requires forall p :: p in parents ==> exists l :: l in leaves && LeafNode(l) == p
    ensures |leaves| == |parents|
  {
    NoDuplicatesSize(parents);
    DistinctKeysAsKeys(leaves, LeafNode);
    RefsMembers(leaves, LeafNode);
    assert Refs(leaves, LeafNode) == Elements(parents);
  }

  lemma LeavesAreParents(env: Env, cut: AdmittedCut, a: Artifact, d: Derivation, leaves: seq<SourceLeaf>)
    requires LeavesCover(env, cut, a, leaves) && RootOverSources(a, d)
    ensures forall l :: l in leaves ==> l.specificationNodeId in d.parents && LeafNode(l) in Elements(d.parents)
  {
    forall l | l in leaves
      ensures l.specificationNodeId in d.parents
    {
      assert IsSourceNode(a, l.specificationNodeId);
    }
  }

  /**
   On cuts with one derivation the two validators agree, apart from the depth-one
   demand that the derivation's provenance lists its parents in their own order.
   */
  lemma DepthOneExactly(env: Env, cut: AdmittedCut, b: DerivedBasis, d: Derivation)
    requires b.ancestors.derivations == [d] && forall n :: n in b.ancestors.nodes ==> NulFree(n.id)
    ensures DepthOneAccepted(env, cut, b) <==>
            && ClosureAccepted(env, cut, AsRecursive(b, d.id))
            && d.provenanceRef in ProvenanceIndex(b.ancestors)
            && ProvenanceIndex(b.ancestors)[d.provenanceRef].originRefs == d.parents
  {
    var a, r := b.ancestors, AsRecursive(b, d.id);
    if DepthOneAccepted(env, cut, b) {
      DepthOneRefined(env, cut, b);
    }
    if ClosureAccepted(env, cut, r) && d.provenanceRef in ProvenanceIndex(a) &&
       ProvenanceIndex(a)[d.provenanceRef].originRefs == d.parents
    {
      ConverseRecords(env, cut, b, d);
    }
  }

  lemma ConverseRecords(env: Env, cut: AdmittedCut, b: DerivedBasis, d: Derivation)
    requires ClosureAccepted(env, cut, AsRecursive(b, d.id)) && b.ancestors.derivations == [d]
    requires forall n :: n in b.ancestors.nodes ==> NulFree(n.id)
    requires d.provenanceRef in ProvenanceIndex(b.ancestors)
    requires ProvenanceIndex(b.ancestors)[d.provenanceRef].originRefs == d.parents
    ensures DepthOneShape(cut, b, d) && DepthOneRecords(env, cut, b, d)
  {
    var a := b.ancestors;
    SingleDerivation(a, d);
    NodeLookup(a);
    RecursiveParentsAreSources(env, cut, AsRecursive(b, d.id), d);
    ConverseCounts(env, cut, b, d);
    assert NodeMatches(env, cut, a, NodeIndex(a)[d.nodeId]);
    forall n | n in a.nodes
      ensures DepthOneNode(env, cut, a, d, n)
    {
      assert NodeMatches(env, cut, a, n);
    }
    forall e | e in a.edges
      ensures DepthOneEdge(a, d, e)
    {
      assert EdgeMatches(a, e);
    }
  }

  // ----- the entry point -----

  const MAX_DERIVED_PARENTS := 8

  predicate DepthOneCounts(b: DerivedBasis) {
    var a := b.ancestors;
    && |a.derivations| == 1 && 1 <= |a.derivations[0].parents| <= MAX_DERIVED_PARENTS
    && 1 <= |b.sourceLeaves| <= MAX_DERIVED_PARENTS
    && |a.nodes| <= MAX_DERIVED_PARENTS + 1 && |a.edges| <= MAX_DERIVED_PARENTS
    && |a.payloads| <= MAX_DERIVED_PARENTS + 1
    && |a.provenance| <= 2 * MAX_DERIVED_PARENTS + 1 && |a.temporal| <= MAX_DERIVED_PARENTS + 1
    && |a.integrity| <= MAX_DERIVED_PARENTS + 1
    && forall p :: p in a.provenance ==> |p.originRefs| <= MAX_DERIVED_PARENTS
  }

  predicate DepthOneWithinBounds(b: DerivedBasis) {
    && DepthOneCounts(b) && CleanArtifact(b.ancestors)
    && BoundedText(b.contractVersion) && BoundedText(b.id) && BoundedText(b.admittedCutId) && BoundedText(b.rootNodeId)
    && BoundedText(b.ruleStatement) && b.ruleStatement != ""
    && !IsSpace(b.ruleStatement[0]) && !IsSpace(b.ruleStatement[|b.ruleStatement| - 1])
  }

  const DERIVED_BASIS_VERSION := "lab-canonical-implements-derived-review-basis/v1"

  /** Depth one seals without reordering. */
  function SealedDerived(b: DerivedBasis, digest: DerivedBasis -> string): DerivedBasis {
    var versioned := b.(contractVersion := DERIVED_BASIS_VERSION, id := "");
    versioned.(id := digest(versioned))
  }

  /** Bounds, cut, root and closure; the encoded size is apart. */
  ghost predicate DepthOneReviewable(env: Env, cut: AdmittedCut, b: DerivedBasis) {
    DepthOneWithinBounds(b) && ValidCut(env, cut) && b.admittedCutId == cut.id && DepthOneAccepted(env, cut, b)
  }

  /** Short enough as supplied, versioned and sealed. */
  predicate DerivedSizeFits(size: DerivedBasis -> nat, b: DerivedBasis, digest: DerivedBasis -> string) {
    && size(b) <= MAX_BASIS_BYTES && size(SealedDerived(b, digest)) <= MAX_BASIS_BYTES
    && size(b.(contractVersion := DERIVED_BASIS_VERSION, id := "")) <= MAX_BASIS_BYTES
  }

  method CheckDerivedReview(env: Env, cut: AdmittedCut, b: DerivedBasis) returns (ok: bool)
    ensures ok <==> DepthOneReviewable(env, cut, b)
  {
    ok := DepthOneWithinBounds(b);
    if ok {
      ok := ValidateAdmittedCut(env.excerptHash, env.cutId, cut);
    }
    if ok {
      ok := b.admittedCutId == cut.id;
    }
    if ok {
      ok := ValidateDepthOne(env, cut, b);
    }
  }

  method SealDerived(b: DerivedBasis, size: DerivedBasis -> nat, digest: DerivedBasis -> string)
    returns (r: Option<DerivedBasis>)
    ensures r.Some? <==> DerivedSizeFits(size, b, digest)
    ensures r.Some? ==> r.value == SealedDerived(b, digest)
  {
    if size(b) > MAX_BASIS_BYTES {
      return None;
    }
    var versioned := b.(contractVersion := DERIVED_BASIS_VERSION, id := "");
    if size(versioned) > MAX_BASIS_BYTES {
      return None;
    }
    var sealed := versioned.(id := digest(versioned));
    return if size(sealed) > MAX_BASIS_BYTES then None else Some(sealed);
  }

  method NewDerivedReviewBasis(
    env: Env, cut: AdmittedCut, b: DerivedBasis, size: DerivedBasis -> nat, digest: DerivedBasis -> string)
    returns (r: Option<DerivedBasis>)
    ensures r.Some? <==> DepthOneReviewable(env, cut, b) && DerivedSizeFits(size, b, digest)
    ensures r.Some? ==> r.value == SealedDerived(b, digest)
  {
    var ok := CheckDerivedReview(env, cut, b);
    if !ok {
      return None;
    }
    r := SealDerived(b, size, digest);
  }

  lemma DepthOneBoundsRefine(b: DerivedBasis)
    requires DepthOneWithinBounds(b) && 2 <= |b.ancestors.nodes| && 1 <= |b.ancestors.edges|
    requires Utf8Size(b.ruleStatement) <= MAX_COVERAGE_BYTES
    ensures WithinBounds(AsRecursive(b, b.ancestors.derivations[0].id))
  {
    var d := b.ancestors.derivations[0];
    assert CleanDerivation(d);
    ShortText("");
    assert CleanRule(DerivationRule(b.rootNodeId, d.id, b.ruleStatement));
  }

  /**
   At the entry points: within the smaller bounds, depth one accepts exactly what the
   recursive entry point accepts with the derivation's provenance in parent order, as long
   as the rule is no longer than the recursive entry point allows.
   */
  lemma DepthOneEntryExactly(env: Env, cut: AdmittedCut, b: DerivedBasis, d: Derivation)
    requires DepthOneWithinBounds(b) && b.ancestors.derivations == [d]
    ensures DepthOneReviewable(env, cut, b) && Utf8Size(b.ruleStatement) <= MAX_COVERAGE_BYTES <==>
            && Reviewable(env, cut, AsRecursive(b, d.id))
            && d.provenanceRef in ProvenanceIndex(b.ancestors)
            && ProvenanceIndex(b.ancestors)[d.provenanceRef].originRefs == d.parents
  {
    forall n | n in b.ancestors.nodes
      ensures NulFree(n.id)
    {
      assert CleanNode(n);
    }
    DepthOneExactly(env, cut, b, d);
    if DepthOneReviewable(env, cut, b) && Utf8Size(b.ruleStatement) <= MAX_COVERAGE_BYTES {
      DepthOneBoundsRefine(b);
    }
    if Reviewable(env, cut, AsRecursive(b, d.id)) {
      RuleWithin(b, d.id);
    }
  }

  lemma RuleWithin(b: DerivedBasis, derivationId: Id)
    requires WithinBounds(AsRecursive(b, derivationId))
    ensures Utf8Size(b.ruleStatement) <= MAX_COVERAGE_BYTES
  {
    var rule := AsRecursive(b, derivationId).rules[0];
    assert rule in AsRecursive(b, derivationId).rules && CleanRule(rule);
  }
}
