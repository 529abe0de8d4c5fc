/**
 The two entry points over the recursive closure check: building a sealed review
 basis, and validating one that claims to be sealed already.
 */
module ReviewBasis {
  import opened Outcomes
  import opened Ordering
  import opened Evidence
  import opened AdmittedCuts
  import opened ClosureHeight
  import opened RecursiveClosure
  import opened Sealing
  import opened SealedAcceptance

  const MAX_RECURSIVE_NODES := 64
  const MAX_RECURSIVE_EDGES := 128
  const MAX_RECURSIVE_PARENTS := 32
  const MAX_COVERAGE_BYTES := 4000
  const MAX_BASIS_BYTES := 8388608

  // ----- bounds -----

  predicate BoundedText(s: string) {
    NulFree(s) && Utf8Size(s) <= MAX_EXCERPT_BYTES
  }

  predicate Clean(texts: seq<string>) {
    forall s :: s in texts ==> BoundedText(s)
  }

  predicate CleanNode(n: CanonicalNode) {
    && BoundedText(n.id) && BoundedText(n.payloadRef) && BoundedText(n.provenanceRef) && BoundedText(n.temporalRef)
    && BoundedText(n.integrityRef)
  }

  predicate CleanEdge(e: CanonicalEdge) {
    BoundedText(e.id) && BoundedText(e.from) && BoundedText(e.to) && BoundedText(e.provenanceRef)
  }

  predicate CleanPayload(p: Payload) {
    && BoundedText(p.id) && BoundedText(p.sourceType) && BoundedText(p.title) && BoundedText(p.source)
    && BoundedText(p.span)
    && BoundedText(p.spanLocator) && BoundedText(p.claim) && BoundedText(p.applicability)
  }

  predicate CleanProvenance(p: Provenance) {
    && |p.originRefs| <= MAX_RECURSIVE_PARENTS && Clean(p.originRefs)
    && BoundedText(p.id) && BoundedText(p.originGroup) && BoundedText(p.producer) && BoundedText(p.methodName)
    && BoundedText(p.methodVersion) && BoundedText(p.traceRef) && BoundedText(p.reviewRef)
  }

  predicate CleanDerivation(d: Derivation) {
    && 1 <= |d.parents| <= MAX_RECURSIVE_PARENTS && Clean(d.parents)
    && BoundedText(d.id) && BoundedText(d.nodeId) && BoundedText(d.methodName) && BoundedText(d.producer)
    && BoundedText(d.traceRef)
    && BoundedText(d.provenanceRef)
  }

  /** An explicit rule statement: nonempty and without surrounding whitespace. */
  predicate CleanRule(r: DerivationRule) {
    && r.ruleStatement != "" && Utf8Size(r.ruleStatement) <= MAX_COVERAGE_BYTES
    && !IsSpace(r.ruleStatement[0])
    && !IsSpace(r.ruleStatement[|r.ruleStatement| - 1])
    && BoundedText(r.nodeId) && BoundedText(r.derivationId) && BoundedText(r.ruleStatement)
  }

  predicate WithinCounts(b: RecursiveBasis) {
    var a := b.ancestors;
    && 2 <= |a.nodes| <= MAX_RECURSIVE_NODES && 1 <= |a.edges| <= MAX_RECURSIVE_EDGES
    && 1 <= |a.derivations| < MAX_RECURSIVE_NODES && |b.rules| == |a.derivations|
    && 1 <= |b.sourceLeaves| < MAX_RECURSIVE_NODES && |a.payloads| <= MAX_RECURSIVE_NODES
    && |a.provenance| <= MAX_RECURSIVE_NODES + MAX_RECURSIVE_EDGES
    && |a.temporal| <= MAX_RECURSIVE_NODES && |a.integrity| <= MAX_RECURSIVE_NODES
  }

  predicate CleanArtifact(a: Artifact) {
    && BoundedText(a.schemaVersion) && BoundedText(a.snapshotId)
    && (forall n :: n in a.nodes ==> CleanNode(n))
    && (forall e :: e in a.edges ==> CleanEdge(e))
    && (forall p :: p in a.payloads ==> CleanPayload(p))
    && (forall p :: p in a.provenance ==> CleanProvenance(p))
    && (forall t :: t in a.temporal ==> BoundedText(t.id) && BoundedText(t.body))
    && (forall i :: i in a.integrity ==> BoundedText(i.id) && BoundedText(i.digest))
    && (forall d :: d in a.derivations ==> CleanDerivation(d))
  }

  predicate WithinBounds(b: RecursiveBasis) {
    && WithinCounts(b) && CleanArtifact(b.ancestors)
    && BoundedText(b.contractVersion) && BoundedText(b.id) && BoundedText(b.admittedCutId) && BoundedText(b.rootNodeId)
    && (forall r :: r in b.rules ==> CleanRule(r))
  }

  // ----- the entry points -----

  ghost predicate ValidCut(env: Env, cut: AdmittedCut) {
    ValidAdmittedCut(env.excerptHash, env.cutId, cut)
  }

  /** Bounds, cut, root and closure; the encoded size is apart. */
  ghost predicate Reviewable(env: Env, cut: AdmittedCut, b: RecursiveBasis) {
    && WithinBounds(b) && ValidCut(env, cut) && b.admittedCutId == cut.id
    && b.rootNodeId in Specifications(cut) && Specifications(cut)[b.rootNodeId].nodeKind == DerivedClaim
    && ClosureAccepted(env, cut, b)
  }

  /** The basis as supplied, and again with its version set and its id cleared, is not too long when encoded. */
  predicate SizeFits(env: Env, b: RecursiveBasis) {
    && env.encodedSize(b) <= MAX_BASIS_BYTES
    && env.encodedSize(b.(contractVersion := RECURSIVE_BASIS_VERSION, id := "")) <= MAX_BASIS_BYTES
  }

  ghost predicate Admissible(env: Env, cut: AdmittedCut, b: RecursiveBasis) {
    Reviewable(env, cut, b) && SizeFits(env, b)
  }

  /** Bounds, cut, root and closure. */
  method CheckReview(env: Env, cut: AdmittedCut, input: RecursiveBasis) returns (defect: Option<ReviewError>)
    ensures defect.None? <==> Reviewable(env, cut, input)
  {
    if !WithinBounds(input) {
      return Some(Invalid);
    }
    var valid := ValidateAdmittedCut(env.excerptHash, env.cutId, cut);
    if !valid {
      return Some(Invalid);
    }
    var root := FindSpecification(cut, input.rootNodeId);
    if root.None? || input.admittedCutId != cut.id || root.value.nodeKind != DerivedClaim {
      return Some(EndpointMissing);
    }
    defect := ValidateRecursiveClosure(env, cut, input);
  }

  /** Version, normal form and digest, if the encodings are short enough. */
  method SealReview(env: Env, input: RecursiveBasis, digest: RecursiveBasis -> string)
    returns (r: Result<RecursiveBasis, ReviewError>)
    ensures r.Ok? <==>
              && env.encodedSize(input.(contractVersion := RECURSIVE_BASIS_VERSION, id := "")) <= MAX_BASIS_BYTES
              && env.encodedSize(Sealed(input, digest)) <= MAX_BASIS_BYTES
    ensures r.Ok? ==> r.value == Sealed(input, digest)
  {
    var versioned := input.(contractVersion := RECURSIVE_BASIS_VERSION, id := "");
    if env.encodedSize(versioned) > MAX_BASIS_BYTES {
      return Err(Invalid);
    }
    var result := NormalizeRecursiveBasis(versioned);
    var sealed := result.(id := digest(result));
    return if env.encodedSize(sealed) > MAX_BASIS_BYTES then Err(Invalid) else Ok(sealed);
  }

  method NewRecursiveReviewBasis(env: Env, cut: AdmittedCut, input: RecursiveBasis, digest: RecursiveBasis -> string)
    returns (r: Result<RecursiveBasis, ReviewError>)
    ensures r.Ok? <==> Admissible(env, cut, input) && env.encodedSize(Sealed(input, digest)) <= MAX_BASIS_BYTES
    ensures r.Ok? ==> r.value == Sealed(input, digest)
  {
    if env.encodedSize(input) > MAX_BASIS_BYTES {
      return Err(Invalid);
    }
    var defect := CheckReview(env, cut, input);
    if defect.Some? {
      return Err(defect.value);
    }
    r := SealReview(env, input, digest);
  }

  method ValidateRecursiveReviewBasis(
    env: Env, cut: AdmittedCut, expected: RecursiveBasis, digest: RecursiveBasis -> string)
    returns (ok: bool)
    ensures ok <==> Admissible(env, cut, expected) && expected == Sealed(expected, digest)
  {
    var want := NewRecursiveReviewBasis(env, cut, expected, digest);
    return want.Ok? && want.value == expected;
  }

  // ----- bounds do not depend on order -----

  lemma SealedWithinBounds(b: RecursiveBasis, digest: RecursiveBasis -> string)
    requires WithinBounds(b) && forall x :: BoundedText(digest(x))
    ensures WithinBounds(Sealed(b, digest))
  {
    SortFacts(b.rules, RuleNode);
    SealedCounts(b, digest);
    SealedArtifactClean(b.ancestors);
    VersionClean(Sealed(b, digest).contractVersion);
  }

  lemma ShortText(s: string)
    requires NulFree(s) && 4 * |s| <= MAX_EXCERPT_BYTES
    ensures BoundedText(s)
  {
    Utf8SizeBound(s);
  }

  lemma VersionNulFree()
    ensures NulFree(RECURSIVE_BASIS_VERSION)
  {
    assert RECURSIVE_BASIS_VERSION == "canonical-implements-" + "recursive-review-basis/v2";
    assert NulFree("canonical-implements-") && NulFree("recursive-review-basis/v2");
  }

  lemma VersionClean(version: string)
    requires version == RECURSIVE_BASIS_VERSION
    ensures BoundedText(version)
  {
    VersionNulFree();
    ShortText(version);
  }

  lemma SealedCounts(b: RecursiveBasis, digest: RecursiveBasis -> string)
    requires WithinCounts(b)
    ensures WithinCounts(Sealed(b, digest))
  {
    NormalIsSameUpToOrder(b, digest);
    var a, a' := b.ancestors, Sealed(b, digest).ancestors;
    PermutationFacts(a'.nodes, a.nodes);
    PermutationFacts(a'.edges, a.edges);
    PermutationFacts(a'.payloads, a.payloads);
    PermutationFacts(a'.temporal, a.temporal);
    PermutationFacts(a'.integrity, a.integrity);
    PermutationFacts(b.rules, Sealed(b, digest).rules);
    PermutationFacts(b.sourceLeaves, Sealed(b, digest).sourceLeaves);
    PermutationFacts(Mapped(a'.derivations, SortParents), Mapped(a.derivations, SortParents));
    PermutationFacts(Mapped(a'.provenance, OriginSorter(SortedRefs(a'))),
                     Mapped(a.provenance, OriginSorter(SortedRefs(a))));
  }

  lemma SealedArtifactClean(a: Artifact)
    requires CleanArtifact(a)
    ensures CleanArtifact(NormalArtifact(a))
  {
    SortFacts(a.nodes, NodeId);
    SortFacts(a.edges, EdgeId);
    SortFacts(a.payloads, PayloadId);
    SortFacts(a.temporal, TemporalId);
    SortFacts(a.integrity, IntegrityId);
    SealedDerivationsClean(a);
    SealedProvenanceClean(a);
  }

  lemma SealedDerivationsClean(a: Artifact)
    requires forall d :: d in a.derivations ==> CleanDerivation(d)
    ensures forall d :: d in NormalArtifact(a).derivations ==> CleanDerivation(d)
  {
    var m := Mapped(a.derivations, SortParents);
    SortFacts(m, DerivationId);
    forall i | 0 <= i < |m|
      ensures CleanDerivation(m[i])
    {
      CleanParentsSorted(a.derivations[i]);
    }
  }

  lemma CleanParentsSorted(d: Derivation)
    requires CleanDerivation(d)
    ensures CleanDerivation(SortParents(d))
  {
    SortFacts(d.parents, SelfKey);
  }

  lemma SealedProvenanceClean(a: Artifact)
    requires forall p :: p in a.provenance ==> CleanProvenance(p)
    ensures forall p :: p in NormalArtifact(a).provenance ==> CleanProvenance(p)
  {
    var m := Mapped(a.provenance, OriginSorter(SortedRefs(a)));
    SortFacts(m, ProvenanceId);
    forall i | 0 <= i < |m|
      ensures CleanProvenance(m[i])
    {
      CleanOriginsSorted(a.provenance[i], SortedRefs(a));
    }
  }

  lemma CleanOriginsSorted(p: Provenance, refs: set<Id>)
    requires CleanProvenance(p)
    ensures CleanProvenance(SortOrigins(p, refs))
  {
    SortFacts(p.originRefs, SelfKey);
  }

  /** What sealing leaves fits again: clearing the id of an encoded basis never makes it longer. */
  lemma SealedSizeFits(env: Env, b: RecursiveBasis, digest: RecursiveBasis -> string)
    requires env.encodedSize(Sealed(b, digest)) <= MAX_BASIS_BYTES
    requires forall x: RecursiveBasis :: env.encodedSize(x.(id := "")) <= env.encodedSize(x)
    ensures SizeFits(env, Sealed(b, digest))
  {
    var s := Sealed(b, digest);
    assert s.(contractVersion := RECURSIVE_BASIS_VERSION, id := "") == s.(id := "");
  }

  lemma SealedReviewable(env: Env, cut: AdmittedCut, b: RecursiveBasis, digest: RecursiveBasis -> string)
    requires Reviewable(env, cut, b) && forall x :: BoundedText(digest(x))
    ensures Reviewable(env, cut, Sealed(b, digest)) <==> NoReversedSharing(b.ancestors)
    ensures Sealed(Sealed(b, digest), digest) == Sealed(b, digest)
  {
    SealedAccepted(env, cut, b, digest);
    AcceptedIsKeyed(env, cut, b);
    SealIdempotent(b, digest);
    SealedWithinBounds(b, digest);
  }

  /**
   What the builder returns passes the validator if and only if the input shared no
   provenance record between a derivation and a backwards edge.
   */
  lemma BuiltBasisValidates(env: Env, cut: AdmittedCut, b: RecursiveBasis, digest: RecursiveBasis -> string)
    requires Admissible(env, cut, b) && env.encodedSize(Sealed(b, digest)) <= MAX_BASIS_BYTES
    requires forall x :: BoundedText(digest(x))
    requires forall x: RecursiveBasis :: env.encodedSize(x.(id := "")) <= env.encodedSize(x)
    ensures var s := Sealed(b, digest);
            Admissible(env, cut, s) && s == Sealed(s, digest) <==> NoReversedSharing(b.ancestors)
  {
    SealedReviewable(env, cut, b, digest);
    SealedSizeFits(env, b, digest);
  }

  // ----- an admissible basis is an exact cover -----

  lemma ParentHasEdge(a: Artifact, digest: Payload -> string, d: Derivation, p: Id)
    requires ValidArtifact(a, digest) && (forall n :: n in a.nodes ==> NulFree(n.id))
    requires d in a.derivations && p in d.parents
    ensures exists e :: e in a.edges && e.relation == DerivedFrom && EdgePair(e) == (p, d.nodeId)
  {
    IndexKeys(a.nodes, NodeId);
    assert PairKey(p, d.nodeId) in DerivedPairs(a.edges);
    var e :| e in a.edges && e.relation == DerivedFrom && PairKey(e.from, e.to) == PairKey(p, d.nodeId);
    assert NodeId(NodeIndex(a)[e.from]) == e.from && NodeId(NodeIndex(a)[p]) == p;
    PairKeyInjective(e.from, e.to, p, d.nodeId);
  }

  ghost predicate ExactlyOne<T(!new)>(s: seq<T>, p: T -> bool) {
    exists i :: 0 <= i < |s| && p(s[i]) && forall j :: 0 <= j < |s| && p(s[j]) ==> j == i
  }

  lemma OneByKey<T(!new), K>(s: seq<T>, key: T -> K, x: T, p: T -> bool)
    requires DistinctKeys(s, key) && x in s && p(x)
    requires forall y :: p(y) ==> key(y) == key(x)
    ensures ExactlyOne(s, p)
  {
    var i :| 0 <= i < |s| && s[i] == x;
    forall j | 0 <= j < |s| && p(s[j])
      ensures j == i
    {
      assert key(s[j]) == key(s[i]);
    }
  }

  lemma ExactParents(a: Artifact, digest: Payload -> string, d: Derivation, p: Id)
    requires ValidArtifact(a, digest) && EdgesMatch(a) && (forall n :: n in a.nodes ==> CleanNode(n))
    requires d in a.derivations && p in d.parents
    ensures ExactlyOne(a.edges, (e: CanonicalEdge) => EdgePair(e) == (p, d.nodeId))
  {
    ParentHasEdge(a, digest, d, p);
    var e :| e in a.edges && e.relation == DerivedFrom && EdgePair(e) == (p, d.nodeId);
    OneByKey(a.edges, EdgePair, e, (e: CanonicalEdge) => EdgePair(e) == (p, d.nodeId));
  }

  lemma ExactDerivation(a: Artifact, e: CanonicalEdge)
    requires DerivationsValid(a) && EdgesMatch(a) && e in a.edges
    ensures ExactlyOne(a.derivations, (d: Derivation) => d.nodeId == e.to && e.from in d.parents)
  {
    IndexKeys(a.derivations, DerivationNode);
    assert EdgeMatches(a, e);
    OneByKey(a.derivations, DerivationNode, DerivationIndex(a)[e.to],
             (d: Derivation) => d.nodeId == e.to && e.from in d.parents);
  }

  lemma ExactRule(a: Artifact, rules: seq<DerivationRule>, d: Derivation)
    requires DerivationsValid(a) && RulesCover(a, rules) && d in a.derivations
    ensures ExactlyOne(rules, (r: DerivationRule) => r.nodeId == d.nodeId && r.derivationId == d.id)
  {
    IndexKeys(a.derivations, DerivationNode);
    var r :| r in rules && r.nodeId == d.nodeId;
    assert RuleMatches(a, r) && DerivationIndex(a)[DerivationNode(d)] == d;
    OneByKey(rules, RuleNode, r, (r: DerivationRule) => r.nodeId == d.nodeId && r.derivationId == d.id);
  }

  lemma ExactReview(env: Env, cut: AdmittedCut, a: Artifact, leaves: seq<SourceLeaf>, n: CanonicalNode)
    requires LeavesCover(env, cut, a, leaves) && n in a.nodes && n.kind == SourceClaim
    ensures ExactlyOne(leaves, (l: SourceLeaf) => l.specificationNodeId == n.id)
  {
    var l :| l in leaves && l.specificationNodeId == n.id;
    OneByKey(leaves, LeafNode, l, (l: SourceLeaf) => l.specificationNodeId == n.id);
  }

  /**
   Edges correspond one to one with (parent, derivation) pairs, rules with derivations
   and source reviews with source claims; every record is used, and every node lies on a
   chain of at most eight derived layers below the root.
   */
  lemma ExactCover(env: Env, cut: AdmittedCut, b: RecursiveBasis)
    requires Admissible(env, cut, b)
    ensures forall d, p :: d in b.ancestors.derivations && p in d.parents ==>
              ExactlyOne(b.ancestors.edges, (e: CanonicalEdge) => EdgePair(e) == (p, d.nodeId))
    ensures forall e :: e in b.ancestors.edges ==>
              ExactlyOne(b.ancestors.derivations, (d: Derivation) => d.nodeId == e.to && e.from in d.parents)
    ensures forall d :: d in b.ancestors.derivations ==>
              ExactlyOne(b.rules, (r: DerivationRule) => r.nodeId == d.nodeId && r.derivationId == d.id)
    ensures forall n :: n in b.ancestors.nodes && n.kind == SourceClaim ==>
              ExactlyOne(b.sourceLeaves, (l: SourceLeaf) => l.specificationNodeId == n.id)
    ensures |b.rules| == |b.ancestors.derivations| && NoPadding(b.ancestors)
    ensures forall n :: n in b.ancestors.nodes ==> ClosureGraph(b.ancestors).Reached(b.rootNodeId, n.id)
  {
    var a := b.ancestors;
    forall d, p | d in a.derivations && p in d.parents
      ensures ExactlyOne(a.edges, (e: CanonicalEdge) => EdgePair(e) == (p, d.nodeId))
    {
      ExactParents(a, env.digest, d, p);
    }
    forall e | e in a.edges
      ensures ExactlyOne(a.derivations, (d: Derivation) => d.nodeId == e.to && e.from in d.parents)
    {
      ExactDerivation(a, e);
    }
    forall d | d in a.derivations
      ensures ExactlyOne(b.rules, (r: DerivationRule) => r.nodeId == d.nodeId && r.derivationId == d.id)
    {
      ExactRule(a, b.rules, d);
    }
    forall n | n in a.nodes && n.kind == SourceClaim
      ensures ExactlyOne(b.sourceLeaves, (l: SourceLeaf) => l.specificationNodeId == n.id)
    {
      ExactReview(env, cut, a, b.sourceLeaves, n);
    }
    IndexKeys(a.nodes, NodeId);
    forall n | n in a.nodes
      ensures ClosureGraph(a).Reached(b.rootNodeId, n.id)
    {
      assert NodeId(n) in NodeIndex(a) && n.id in ClosureGraph(a).nodes;
    }
  }
}
