/**
 Acceptance of a basis, rearranged: everything the validator checks survives a change
 of order except one comparison, the ordered endpoints stored in an edge's provenance.
 */
module SealedAcceptance {
  import opened Outcomes
  import opened Ordering
  import opened Evidence
  import opened AdmittedCuts
  import opened Identity
  import opened ClosureHeight
  import opened RecursiveClosure
  import opened Sealing

  // ----- what equality up to order gives record by record -----

  predicate ReorderedDerivation(d: Derivation, d': Derivation) {
    d' == d.(parents := d'.parents) && multiset(d'.parents) == multiset(d.parents)
  }

  predicate ReorderedProvenance(p: Provenance, p': Provenance) {
    p' == p.(originRefs := p'.originRefs) && multiset(p'.originRefs) == multiset(p.originRefs)
  }

  ghost predicate AlignedDerivations(a: Artifact, a': Artifact) {
    && DerivationIndex(a').Keys == DerivationIndex(a).Keys
    && (forall k :: k in DerivationIndex(a) ==> ReorderedDerivation(DerivationIndex(a)[k], DerivationIndex(a')[k]))
    && DistinctKeys(a'.derivations, DerivationId) && DistinctKeys(a'.derivations, DerivationNode)
    && (forall d' :: d' in a'.derivations ==> exists d :: d in a.derivations && ReorderedDerivation(d, d'))
  }

  ghost predicate AlignedProvenance(a: Artifact, a': Artifact) {
    && ProvenanceIndex(a').Keys == ProvenanceIndex(a).Keys
    && (forall k :: k in ProvenanceIndex(a) ==> ReorderedProvenance(ProvenanceIndex(a)[k], ProvenanceIndex(a')[k]))
    && DistinctKeys(a'.provenance, ProvenanceId)
    && (forall p' :: p' in a'.provenance ==> exists p :: p in a.provenance && ReorderedProvenance(p, p'))
  }

  ghost predicate Aligned(a: Artifact, a': Artifact) {
    && a'.schemaVersion == a.schemaVersion && a'.snapshotId == a.snapshotId
    && AlignedRecords(a, a')
    && AlignedDerivations(a, a') && AlignedProvenance(a, a')
  }

  lemma PermutedIndex<T>(s: seq<T>, t: seq<T>, key: T -> string)
    requires multiset(t) == multiset(s) && DistinctKeys(s, key)
    ensures DistinctKeys(t, key) && Index(t, key) == Index(s, key)
    ensures forall x :: x in t <==> x in s
  {
    PermutationFacts(t, s);
    DistinctKeysPermuted(s, t, key);
    IndexByMembers(s, t, key);
  }

  lemma SortParentsReorders(d: Derivation, d': Derivation)
    requires SortParents(d) == SortParents(d')
    ensures ReorderedDerivation(d, d')
  {
    SortFacts(d.parents, SelfKey);
    SortFacts(d'.parents, SelfKey);
    assert d' == SortParents(d').(parents := d'.parents);
  }

  lemma SortOriginsReorders(p: Provenance, p': Provenance, refs: set<Id>)
    requires SortOrigins(p, refs) == SortOrigins(p', refs)
    ensures ReorderedProvenance(p, p')
  {
    SortFacts(p.originRefs, SelfKey);
    SortFacts(p'.originRefs, SelfKey);
    assert p.id == SortOrigins(p, refs).id == p'.id;
    assert p' == SortOrigins(p', refs).(originRefs := p'.originRefs);
  }

  lemma AlignDerivationIndex(a: Artifact, a': Artifact)
    requires multiset(Mapped(a'.derivations, SortParents)) == multiset(Mapped(a.derivations, SortParents))
    requires DistinctKeys(a.derivations, DerivationNode)
    ensures DistinctKeys(a'.derivations, DerivationNode) && DerivationIndex(a').Keys == DerivationIndex(a).Keys
    ensures forall k :: k in DerivationIndex(a) ==> ReorderedDerivation(DerivationIndex(a)[k], DerivationIndex(a')[k])
  {
    MappedKeys(a.derivations, DerivationNode, SortParents);
    MappedKeys(a'.derivations, DerivationNode, SortParents);
    PermutedIndex(Mapped(a.derivations, SortParents), Mapped(a'.derivations, SortParents), DerivationNode);
    IndexMapped(a.derivations, DerivationNode, SortParents);
    IndexMapped(a'.derivations, DerivationNode, SortParents);
    forall k | k in DerivationIndex(a)
      ensures ReorderedDerivation(DerivationIndex(a)[k], DerivationIndex(a')[k])
    {
      SortParentsReorders(DerivationIndex(a)[k], DerivationIndex(a')[k]);
    }
  }

  lemma AlignDerivations(a: Artifact, a': Artifact)
    requires multiset(Mapped(a'.derivations, SortParents)) == multiset(Mapped(a.derivations, SortParents))
    requires DistinctKeys(a.derivations, DerivationId) && DistinctKeys(a.derivations, DerivationNode)
    ensures AlignedDerivations(a, a')
  {
    var m, m' := Mapped(a.derivations, SortParents), Mapped(a'.derivations, SortParents);
    AlignDerivationIndex(a, a');
    MappedKeys(a.derivations, DerivationId, SortParents);
    MappedKeys(a'.derivations, DerivationId, SortParents);
    DistinctKeysPermuted(m, m', DerivationId);
    PermutationFacts(m, m');
    forall d' | d' in a'.derivations
      ensures exists d :: d in a.derivations && ReorderedDerivation(d, d')
    {
      var d :| d in a.derivations && SortParents(d) == SortParents(d');
      SortParentsReorders(d, d');
    }
  }

  lemma SameSortedRefs(a: Artifact, a': Artifact)
    requires multiset(Mapped(a'.derivations, SortParents)) == multiset(Mapped(a.derivations, SortParents))
    ensures SortedRefs(a') == SortedRefs(a)
  {
    var m, m' := Mapped(a.derivations, SortParents), Mapped(a'.derivations, SortParents);
    PermutationFacts(m, m');
    RefsByMembers(m, m', DerivationProvenanceRef);
    assert Mapped(m, DerivationProvenanceRef) == Mapped(a.derivations, DerivationProvenanceRef);
    assert Mapped(m', DerivationProvenanceRef) == Mapped(a'.derivations, DerivationProvenanceRef);
  }

  lemma AlignProvenance(a: Artifact, a': Artifact, refs: set<Id>)
    requires multiset(Mapped(a'.provenance, OriginSorter(refs))) == multiset(Mapped(a.provenance, OriginSorter(refs)))
    requires DistinctKeys(a.provenance, ProvenanceId)
    ensures AlignedProvenance(a, a')
  {
    var f := OriginSorter(refs);
    var m, m' := Mapped(a.provenance, f), Mapped(a'.provenance, f);
    MappedKeys(a.provenance, ProvenanceId, f);
    MappedKeys(a'.provenance, ProvenanceId, f);
    PermutedIndex(m, m', ProvenanceId);
    IndexMapped(a.provenance, ProvenanceId, f);
    IndexMapped(a'.provenance, ProvenanceId, f);
    forall k | k in ProvenanceIndex(a)
      ensures ReorderedProvenance(ProvenanceIndex(a)[k], ProvenanceIndex(a')[k])
    {
      SortOriginsReorders(ProvenanceIndex(a)[k], ProvenanceIndex(a')[k], refs);
    }
    forall p' | p' in a'.provenance
      ensures exists p :: p in a.provenance && ReorderedProvenance(p, p')
    {
      var p :| p in a.provenance && f(p) == f(p');
      SortOriginsReorders(p, p', refs);
    }
  }

  ghost predicate AlignedRecords(a: Artifact, a': Artifact) {
    && (forall n :: n in a'.nodes <==> n in a.nodes) && DistinctKeys(a'.nodes, NodeId)
    && (forall e :: e in a'.edges <==> e in a.edges) && DistinctKeys(a'.edges, EdgeId)
    && (forall p :: p in a'.payloads <==> p in a.payloads) && DistinctKeys(a'.payloads, PayloadId)
    && (forall t :: t in a'.temporal <==> t in a.temporal) && DistinctKeys(a'.temporal, TemporalId)
    && (forall i :: i in a'.integrity <==> i in a.integrity) && DistinctKeys(a'.integrity, IntegrityId)
    && NodeIndex(a') == NodeIndex(a) && PayloadIndex(a') == PayloadIndex(a)
    && TemporalIndex(a') == TemporalIndex(a) && IntegrityIndex(a') == IntegrityIndex(a)
  }

  lemma AlignRecords(a: Artifact, a': Artifact)
    requires multiset(a'.nodes) == multiset(a.nodes) && DistinctKeys(a.nodes, NodeId)
    requires multiset(a'.edges) == multiset(a.edges) && DistinctKeys(a.edges, EdgeId)
    requires multiset(a'.payloads) == multiset(a.payloads) && DistinctKeys(a.payloads, PayloadId)
    requires multiset(a'.temporal) == multiset(a.temporal) && DistinctKeys(a.temporal, TemporalId)
    requires multiset(a'.integrity) == multiset(a.integrity) && DistinctKeys(a.integrity, IntegrityId)
    ensures AlignedRecords(a, a')
  {
    PermutedIndex(a.nodes, a'.nodes, NodeId);
    PermutedIndex(a.edges, a'.edges, EdgeId);
    PermutedIndex(a.payloads, a'.payloads, PayloadId);
    PermutedIndex(a.temporal, a'.temporal, TemporalId);
    PermutedIndex(a.integrity, a'.integrity, IntegrityId);
  }

  lemma Align(a: Artifact, a': Artifact, digest: Payload -> string)
    requires ValidArtifact(a, digest) && SameArtifactUpToOrder(a, a')
    ensures Aligned(a, a')
  {
    AlignRecords(a, a');
    AlignDerivations(a, a');
    SameSortedRefs(a, a');
    AlignProvenance(a, a', SortedRefs(a));
  }

  // ----- each group of checks survives -----

  lemma RecordsTransfer(a: Artifact, a': Artifact)
    requires RecordsValid(a) && Aligned(a, a')
    ensures RecordsValid(a')
  {
    forall p' | p' in a'.provenance
      ensures p'.Complete()
    {
      var p :| p in a.provenance && ReorderedProvenance(p, p');
      PermutationFacts(p.originRefs, p'.originRefs);
    }
  }

  lemma GraphRecordsTransfer(a: Artifact, a': Artifact, digest: Payload -> string)
    requires NodesValid(a, digest) && EdgesValid(a) && Aligned(a, a')
    ensures NodesValid(a', digest) && EdgesValid(a')
  {
  }

  lemma ReorderedNoDuplicates(s: seq<string>, t: seq<string>)
    requires multiset(s) == multiset(t)
    ensures NoDuplicates(s) <==> NoDuplicates(t)
    ensures SameMembers(s, t)
  {
    PermutationFacts(s, t);
    NoDuplicatesSize(s);
    NoDuplicatesSize(t);
    assert Elements(s) == Elements(t);
  }

  lemma DerivationsTransfer(a: Artifact, a': Artifact)
    requires DerivationsValid(a) && Aligned(a, a')
    ensures DerivationsValid(a')
  {
    assert DerivedPairs(a'.edges) == DerivedPairs(a.edges);
    forall d' | d' in a'.derivations
      ensures d'.useClass != "" ==> a'.schemaVersion == HISTORICAL_SCHEMA
      ensures DerivationValid(d', NodeIndex(a'), ProvenanceIndex(a'), DerivedPairs(a'.edges))
    {
      var d :| d in a.derivations && ReorderedDerivation(d, d');
      ReorderedNoDuplicates(d.parents, d'.parents);
      PermutationFacts(d.parents, d'.parents);
    }
  }

  lemma DeclaredTransfers(a: Artifact, a': Artifact, e: CanonicalEdge)
    requires Aligned(a, a')
    ensures EdgeDeclared(e, DerivationIndex(a)) <==> EdgeDeclared(e, DerivationIndex(a'))
  {
    if e.to in DerivationIndex(a) {
      PermutationFacts(DerivationIndex(a)[e.to].parents, DerivationIndex(a')[e.to].parents);
    }
  }

  lemma CoverTransfers(a: Artifact, a': Artifact)
    requires DerivationsCover(a) && Aligned(a, a')
    ensures DerivationsCover(a')
  {
    forall e | e in a'.edges && e.relation == DerivedFrom
      ensures EdgeDeclared(e, DerivationIndex(a'))
    {
      DeclaredTransfers(a, a', e);
    }
  }

  lemma NodeMatchTransfers(env: Env, cut: AdmittedCut, a: Artifact, a': Artifact, n: CanonicalNode)
    requires NodeMatches(env, cut, a, n) && Aligned(a, a')
    ensures NodeMatches(env, cut, a', n)
  {
    if n.kind == DerivedClaim {
      var d, d' := DerivationIndex(a)[n.id], DerivationIndex(a')[n.id];
      var p, p' := ProvenanceIndex(a)[d.provenanceRef], ProvenanceIndex(a')[d.provenanceRef];
      ReorderedNoDuplicates(p.originRefs, p'.originRefs);
      ReorderedNoDuplicates(d.parents, d'.parents);
    }
  }

  lemma PaddingTransfers(a: Artifact, a': Artifact)
    requires NoPadding(a) && Aligned(a, a')
    ensures NoPadding(a')
  {
    forall id
      ensures PayloadUsed(a, id) <==> PayloadUsed(a', id)
      ensures TemporalUsed(a, id) <==> TemporalUsed(a', id)
      ensures IntegrityUsed(a, id) <==> IntegrityUsed(a', id)
      ensures ProvenanceUsed(a, id) <==> ProvenanceUsed(a', id)
    {
    }
    forall p' | p' in a'.provenance
      ensures ProvenanceUsed(a', p'.id)
    {
      var p :| p in a.provenance && ReorderedProvenance(p, p');
    }
  }

  lemma GraphTransfers(a: Artifact, a': Artifact, root: Id)
    requires ClosureGraph(a).Acceptable(root) && Aligned(a, a')
    ensures ClosureGraph(a').Acceptable(root)
  {
    var g, g' := ClosureGraph(a), ClosureGraph(a');
    forall x, y
      ensures y in g.Parents(x) <==> y in g'.Parents(x)
    {
      if x in DerivationIndex(a) {
        PermutationFacts(DerivationIndex(a)[x].parents, DerivationIndex(a')[x].parents);
      }
    }
    ClosureHeight.ParentOrderIrrelevant(g, g', root);
  }

  lemma RulesTransfer(a: Artifact, a': Artifact, rules: seq<DerivationRule>, rules': seq<DerivationRule>)
    requires RulesCover(a, rules) && Aligned(a, a') && multiset(rules') == multiset(rules)
    ensures RulesCover(a', rules')
  {
    PermutedIndex(rules, rules', RuleNode);
    forall d' | d' in a'.derivations
      ensures exists r :: r in rules' && r.nodeId == d'.nodeId
    {
      var d :| d in a.derivations && ReorderedDerivation(d, d');
      var r :| r in rules && r.nodeId == d.nodeId;
      assert r in rules';
    }
  }

  lemma LeavesTransfer(
    env: Env, cut: AdmittedCut, a: Artifact, a': Artifact, leaves: seq<SourceLeaf>, leaves': seq<SourceLeaf>)
    requires LeavesCover(env, cut, a, leaves) && Aligned(a, a') && multiset(leaves') == multiset(leaves)
    ensures LeavesCover(env, cut, a', leaves')
  {
    PermutedIndex(leaves, leaves', LeafNode);
    forall n | n in a'.nodes && n.kind == SourceClaim
      ensures exists l :: l in leaves' && l.specificationNodeId == n.id
    {
      assert n in a.nodes;
      var l :| l in leaves && l.specificationNodeId == n.id;
      assert l in leaves';
    }
  }

  // ----- the one ordered comparison -----

  ghost predicate EdgeOriginsExact(a: Artifact) {
    forall e :: e in a.edges ==> e.provenanceRef in ProvenanceIndex(a) &&
                                 ProvenanceIndex(a)[e.provenanceRef].originRefs == [e.from, e.to]
  }

  lemma EdgesTransfer(a: Artifact, a': Artifact)
    requires EdgesMatch(a) && Aligned(a, a') && EdgeOriginsExact(a') && multiset(a'.edges) == multiset(a.edges)
    ensures EdgesMatch(a')
  {
    forall e | e in a'.edges
      ensures EdgeMatches(a', e)
    {
      assert EdgeMatches(a, e);
      DeclaredTransfers(a, a', e);
    }
    DistinctPairsPermuted(a.edges, a'.edges);
  }

  lemma DistinctPairsPermuted(s: seq<CanonicalEdge>, t: seq<CanonicalEdge>)
    requires multiset(s) == multiset(t) && DistinctKeys(s, EdgePair)
    ensures DistinctKeys(t, EdgePair)
  {
    PermutationFacts(s, t);
    DistinctKeysAsKeys(s, EdgePair);
    DistinctKeysAsKeys(t, EdgePair);
    assert Elements(Mapped(s, EdgePair)) == Elements(Mapped(t, EdgePair));
  }

  lemma ArtifactTransfers(a: Artifact, a': Artifact, digest: Payload -> string)
    requires ValidArtifact(a, digest) && Aligned(a, a')
    ensures ValidArtifact(a', digest)
  {
    RecordsTransfer(a, a');
    GraphRecordsTransfer(a, a', digest);
    DerivationsTransfer(a, a');
    CoverTransfers(a, a');
  }

  lemma AcceptanceTransfers(env: Env, cut: AdmittedCut, b: RecursiveBasis, b': RecursiveBasis)
    requires ClosureAccepted(env, cut, b) && SameUpToOrder(b, b') && EdgeOriginsExact(b'.ancestors)
    ensures ClosureAccepted(env, cut, b')
  {
    var a, a' := b.ancestors, b'.ancestors;
    Align(a, a', env.digest);
    ArtifactTransfers(a, a', env.digest);
    forall n | n in a'.nodes
      ensures NodeMatches(env, cut, a', n)
    {
      NodeMatchTransfers(env, cut, a, a', n);
    }
    EdgesTransfer(a, a');
    PaddingTransfers(a, a');
    GraphTransfers(a, a', b.rootNodeId);
    RulesTransfer(a, a', b.rules, b'.rules);
    LeavesTransfer(env, cut, a, a', b.sourceLeaves, b'.sourceLeaves);
  }

  /** A rearranged basis is accepted exactly when its edge provenance still lists endpoints in order. */
  lemma AcceptanceUpToOrder(env: Env, cut: AdmittedCut, b: RecursiveBasis, b': RecursiveBasis)
    requires ClosureAccepted(env, cut, b) && SameUpToOrder(b, b')
    ensures ClosureAccepted(env, cut, b') <==> EdgeOriginsExact(b'.ancestors)
  {
    if EdgeOriginsExact(b'.ancestors) {
      AcceptanceTransfers(env, cut, b, b');
    }
    if ClosureAccepted(env, cut, b') {
      assert forall e :: e in b'.ancestors.edges ==> EdgeMatches(b'.ancestors, e);
    }
  }

  // ----- when sealing keeps acceptance -----

  /** No provenance record serves both a derivation and an edge whose endpoints sort the other way round. */
  predicate NoReversedSharing(a: Artifact) {
    forall e :: e in a.edges && e.provenanceRef in SortedRefs(a) ==> Leq(e.from, e.to)
  }

  lemma SortedPair(x: string, y: string)
    ensures Sorted([x, y]) == [x, y] <==> Leq(x, y)
  {
    SortFacts([x, y], SelfKey);
    assert SortedBy([x, y], SelfKey) <==> Leq(SelfKey([x, y][0]), SelfKey([x, y][1]));
    if Leq(x, y) {
      SortOfSorted([x, y], SelfKey);
    }
  }

  lemma NormalProvenance(a: Artifact)
    requires DistinctKeys(a.provenance, ProvenanceId)
    ensures ProvenanceIndex(NormalArtifact(a)).Keys == ProvenanceIndex(a).Keys
    ensures forall k :: k in ProvenanceIndex(a) ==>
              ProvenanceIndex(NormalArtifact(a))[k] == SortOrigins(ProvenanceIndex(a)[k], SortedRefs(a))
  {
    var f := OriginSorter(SortedRefs(a));
    var m := Mapped(a.provenance, f);
    MappedKeys(a.provenance, ProvenanceId, f);
    IndexMapped(a.provenance, ProvenanceId, f);
    SortFacts(m, ProvenanceId);
    PermutedIndex(m, SortBy(m, ProvenanceId), ProvenanceId);
  }

  /**
   The sealed form of an accepted basis is accepted again if and only if no provenance
   record is shared between a derivation and a backwards edge.
   */
  lemma SealedAccepted(env: Env, cut: AdmittedCut, b: RecursiveBasis, digest: RecursiveBasis -> string)
    requires ClosureAccepted(env, cut, b)
    ensures ClosureAccepted(env, cut, Sealed(b, digest)) <==> NoReversedSharing(b.ancestors)
  {
    var a, a' := b.ancestors, Sealed(b, digest).ancestors;
    NormalIsSameUpToOrder(b, digest);
    AcceptanceUpToOrder(env, cut, b, Sealed(b, digest));
    NormalProvenance(a);
    SortFacts(a.edges, EdgeId);
    IndexKeys(a.provenance, ProvenanceId);
    forall e | e in a.edges
      ensures e.provenanceRef in ProvenanceIndex(a)
      ensures ProvenanceIndex(a')[e.provenanceRef].originRefs == [e.from, e.to] <==>
              (e.provenanceRef in SortedRefs(a) ==> Leq(e.from, e.to))
    {
      assert EdgeMatches(a, e);
      SortedPair(e.from, e.to);
    }
  }

  /** When derivations and edges have separate provenance records every seal is accepted. */
  lemma DisjointProvenanceSeals(env: Env, cut: AdmittedCut, b: RecursiveBasis, digest: RecursiveBasis -> string)
    requires ClosureAccepted(env, cut, b)
    requires forall e :: e in b.ancestors.edges ==> e.provenanceRef !in SortedRefs(b.ancestors)
    ensures ClosureAccepted(env, cut, Sealed(b, digest))
    ensures Sealed(Sealed(b, digest), digest) == Sealed(b, digest)
  {
    SealedAccepted(env, cut, b, digest);
    AcceptedIsKeyed(env, cut, b);
    SealIdempotent(b, digest);
  }

  /** Ids and provenance references as the admission writer makes them. */
  predicate WriterNamed(hash: string -> string, a: Artifact) {
    && (forall d :: d in a.derivations ==> HasNodePrefix(d.nodeId) && d.provenanceRef == ProvenanceIdOf(hash, d.nodeId))
    && (forall e :: e in a.edges ==> HasEdgePrefix(e.id) && e.provenanceRef == ProvenanceIdOf(hash, e.id))
  }

  /** So a basis over admitted rows always seals, as long as the hash has no collision. */
  lemma WriterSeals(
    hash: string -> string, env: Env, cut: AdmittedCut, b: RecursiveBasis, digest: RecursiveBasis -> string)
    requires ClosureAccepted(env, cut, b) && WriterNamed(hash, b.ancestors)
    requires forall s, t :: hash(s) == hash(t) ==> s == t
    ensures ClosureAccepted(env, cut, Sealed(b, digest))
    ensures Sealed(Sealed(b, digest), digest) == Sealed(b, digest)
  {
    RefsMembers(b.ancestors.derivations, DerivationProvenanceRef);
    forall e | e in b.ancestors.edges
      ensures e.provenanceRef !in SortedRefs(b.ancestors)
    {
      forall d | d in b.ancestors.derivations
        ensures DerivationProvenanceRef(d) != e.provenanceRef
      {
        ProvenanceIdsDiffer(hash, d.nodeId, e.id);
      }
    }
    DisjointProvenanceSeals(env, cut, b, digest);
  }
}
