/** What sealing does to a basis, record by record. */
module PlainSeal {
  import opened Ordering
  import opened Evidence
  import opened RecursiveClosure
  import opened Sealing

  ghost predicate Ascending(s: seq<string>) {
    forall i, j :: 0 <= i < j < |s| ==> Leq(s[i], s[j])
  }

  ghost predicate ArtifactAscending(a: Artifact) {
    && (forall i, j :: 0 <= i < j < |a.nodes| ==> Leq(a.nodes[i].id, a.nodes[j].id))
    && (forall i, j :: 0 <= i < j < |a.edges| ==> Leq(a.edges[i].id, a.edges[j].id))
    && (forall i, j :: 0 <= i < j < |a.payloads| ==> Leq(a.payloads[i].id, a.payloads[j].id))
    && (forall i, j :: 0 <= i < j < |a.provenance| ==> Leq(a.provenance[i].id, a.provenance[j].id))
    && (forall i, j :: 0 <= i < j < |a.temporal| ==> Leq(a.temporal[i].id, a.temporal[j].id))
    && (forall i, j :: 0 <= i < j < |a.integrity| ==> Leq(a.integrity[i].id, a.integrity[j].id))
    && (forall i, j :: 0 <= i < j < |a.derivations| ==> Leq(a.derivations[i].id, a.derivations[j].id))
  }

  ghost predicate CoverAscending(b: RecursiveBasis) {
    && (forall i, j :: 0 <= i < j < |b.sourceLeaves| ==>
          Leq(b.sourceLeaves[i].specificationNodeId, b.sourceLeaves[j].specificationNodeId))
    && (forall i, j :: 0 <= i < j < |b.rules| ==> Leq(b.rules[i].nodeId, b.rules[j].nodeId))
  }

  /** The same derivation, its parents in order. */
  ghost predicate ParentsOrdered(d: Derivation, d': Derivation) {
    d' == d.(parents := d'.parents) && multiset(d'.parents) == multiset(d.parents) && Ascending(d'.parents)
  }

  ghost predicate ByDerivation(a: Artifact, r: Provenance) {
    exists d :: d in a.derivations && d.provenanceRef == r.id
  }

  /** The same record; its origins are put in order if a derivation names it, and left alone otherwise. */
  ghost predicate OriginsOrdered(a: Artifact, r: Provenance, r': Provenance) {
    if ByDerivation(a, r) then
      && r' == r.(originRefs := r'.originRefs) && multiset(r'.originRefs) == multiset(r.originRefs)
      && Ascending(r'.originRefs)
    else
      r' == r
  }

  ghost predicate SameRecords(a: Artifact, a': Artifact) {
    && a'.schemaVersion == a.schemaVersion && a'.snapshotId == a.snapshotId
    && multiset(a'.nodes) == multiset(a.nodes) && multiset(a'.edges) == multiset(a.edges)
    && multiset(a'.payloads) == multiset(a.payloads) && multiset(a'.temporal) == multiset(a.temporal)
    && multiset(a'.integrity) == multiset(a.integrity)
    && |a'.derivations| == |a.derivations| && |a'.provenance| == |a.provenance|
    && (forall d :: d in a.derivations ==> exists d' :: d' in a'.derivations && ParentsOrdered(d, d'))
    && (forall r :: r in a.provenance ==> exists r' :: r' in a'.provenance && OriginsOrdered(a, r, r'))
  }

  lemma SortOneDerivation(a: Artifact, d: Derivation)
    requires d in a.derivations
    ensures SortParents(d) in NormalArtifact(a).derivations && ParentsOrdered(d, SortParents(d))
  {
    var m := Mapped(a.derivations, SortParents);
    SortFacts(m, DerivationId);
    SortFacts(d.parents, SelfKey);
    var i :| 0 <= i < |a.derivations| && a.derivations[i] == d;
    assert m[i] == SortParents(d) && m[i] in m;
    PermutationFacts(SortBy(m, DerivationId), m);
    forall i, j | 0 <= i < j < |SortParents(d).parents|
      ensures Leq(SortParents(d).parents[i], SortParents(d).parents[j])
    {
      assert Leq(SelfKey(SortParents(d).parents[i]), SelfKey(SortParents(d).parents[j]));
    }
  }

  lemma NamedByDerivation(a: Artifact, r: Provenance)
    ensures r.id in SortedRefs(a) <==> ByDerivation(a, r)
  {
    RefsMembers(a.derivations, DerivationProvenanceRef);
    if ByDerivation(a, r) {
      var d :| d in a.derivations && d.provenanceRef == r.id;
      assert DerivationProvenanceRef(d) == r.id;
    }
  }

  lemma SortOneRecord(a: Artifact, r: Provenance)
    requires r in a.provenance
    ensures var r' := SortOrigins(r, SortedRefs(a));
            r' in NormalArtifact(a).provenance && OriginsOrdered(a, r, r')
  {
    var f := OriginSorter(SortedRefs(a));
    var m := Mapped(a.provenance, f);
    SortFacts(m, ProvenanceId);
    SortFacts(r.originRefs, SelfKey);
    NamedByDerivation(a, r);
    var i :| 0 <= i < |a.provenance| && a.provenance[i] == r;
    assert m[i] == f(r) && m[i] in m;
    PermutationFacts(SortBy(m, ProvenanceId), m);
    var sorted := Sorted(r.originRefs);
    forall i, j | 0 <= i < j < |sorted|
      ensures Leq(sorted[i], sorted[j])
    {
      assert Leq(SelfKey(sorted[i]), SelfKey(sorted[j]));
    }
  }

  lemma SortedById<T>(s: seq<T>, key: T -> string)
    ensures multiset(SortBy(s, key)) == multiset(s) && |SortBy(s, key)| == |s|
    ensures forall i, j :: 0 <= i < j < |s| ==> Leq(key(SortBy(s, key)[i]), key(SortBy(s, key)[j]))
  {
    SortFacts(s, key);
    PermutationFacts(SortBy(s, key), s);
  }

  lemma NormalAscends(a: Artifact)
    ensures ArtifactAscending(NormalArtifact(a))
  {
    SortedById(a.nodes, NodeId);
    SortedById(a.edges, EdgeId);
    SortedById(a.payloads, PayloadId);
    SortedById(Mapped(a.provenance, OriginSorter(SortedRefs(a))), ProvenanceId);
    SortedById(a.temporal, TemporalId);
    SortedById(a.integrity, IntegrityId);
    SortedById(Mapped(a.derivations, SortParents), DerivationId);
  }

  lemma NormalKeeps(a: Artifact)
    ensures SameRecords(a, NormalArtifact(a))
  {
    SortedById(a.nodes, NodeId);
    SortedById(a.edges, EdgeId);
    SortedById(a.payloads, PayloadId);
    SortedById(a.temporal, TemporalId);
    SortedById(a.integrity, IntegrityId);
    SortedById(Mapped(a.derivations, SortParents), DerivationId);
    SortedById(Mapped(a.provenance, OriginSorter(SortedRefs(a))), ProvenanceId);
    forall d | d in a.derivations
      ensures exists d' :: d' in NormalArtifact(a).derivations && ParentsOrdered(d, d')
    {
      SortOneDerivation(a, d);
    }
    forall r | r in a.provenance
      ensures exists r' :: r' in NormalArtifact(a).provenance && OriginsOrdered(a, r, r')
    {
      SortOneRecord(a, r);
    }
  }

  /**
   A sealed basis has its version and its own digest, keeps cut, root and every record, and
   lists records by id, parents in order, reviews by claim and rules by node.
   */
  lemma SealedPlainly(b: RecursiveBasis, digest: RecursiveBasis -> string)
    ensures var s := Sealed(b, digest);
            && s.contractVersion == "canonical-implements-recursive-review-basis/v2" && s.id == digest(s.(id := ""))
            && s.admittedCutId == b.admittedCutId && s.rootNodeId == b.rootNodeId
            && SameRecords(b.ancestors, s.ancestors) && ArtifactAscending(s.ancestors)
            && multiset(s.sourceLeaves) == multiset(b.sourceLeaves) && multiset(s.rules) == multiset(b.rules)
            && CoverAscending(s)
  {
    var s := Sealed(b, digest);
    NormalAscends(b.ancestors);
    NormalKeeps(b.ancestors);
    SortedById(b.sourceLeaves, LeafNode);
    SortedById(b.rules, RuleNode);
    assert s.(id := "") == Normalized(b).(contractVersion := RECURSIVE_BASIS_VERSION, id := "");
  }
}
