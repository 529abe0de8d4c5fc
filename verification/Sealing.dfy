/**
 Sealing puts an accepted basis into a normal form before it is content-addressed.
 The normal form forgets the order of records, of derivation parents and of the
 origins of derivation provenance. It is accepted again exactly when no sorted
 provenance record also serves an edge that points backwards in id order.
 */
module Sealing {
  import opened Outcomes
  import opened Ordering
  import opened Evidence
  import opened AdmittedCuts
  import opened ClosureHeight
  import opened RecursiveClosure

  const RECURSIVE_BASIS_VERSION := "canonical-implements-recursive-review-basis/v2"

  function SortParents(d: Derivation): Derivation {
    d.(parents := Sorted(d.parents))
  }

  function DerivationProvenanceRef(d: Derivation): Id { d.provenanceRef }

  /** The provenance records named by derivations: these have their origins sorted. */
  function SortedRefs(a: Artifact): set<Id> {
    Refs(a.derivations, DerivationProvenanceRef)
  }

  function SortOrigins(p: Provenance, refs: set<Id>): Provenance {
    if p.id in refs then p.(originRefs := Sorted(p.originRefs)) else p
  }

  function OriginSorter(refs: set<Id>): (f: Provenance -> Provenance)
    ensures forall p :: f(p) == SortOrigins(p, refs)
  {
    p => SortOrigins(p, refs)
  }

  function NormalArtifact(a: Artifact): Artifact {
    a.(nodes := SortBy(a.nodes, NodeId),
       edges := SortBy(a.edges, EdgeId),
       payloads := SortBy(a.payloads, PayloadId),
       provenance := SortBy(Mapped(a.provenance, OriginSorter(SortedRefs(a))), ProvenanceId),
       temporal := SortBy(a.temporal, TemporalId),
       integrity := SortBy(a.integrity, IntegrityId),
       derivations := SortBy(Mapped(a.derivations, SortParents), DerivationId))
  }

  function Normalized(b: RecursiveBasis): RecursiveBasis {
    b.(ancestors := NormalArtifact(b.ancestors),
       sourceLeaves := SortBy(b.sourceLeaves, LeafNode),
       rules := SortBy(b.rules, RuleNode))
  }

  /** The digest is taken over the normal form with its version set and its id cleared. */
  function Sealed(b: RecursiveBasis, digest: RecursiveBasis -> string): RecursiveBasis {
    var normal := Normalized(b).(contractVersion := RECURSIVE_BASIS_VERSION, id := "");
    normal.(id := digest(normal))
  }

  // ----- the in-place normalizer -----

  method SortMatchingOrigins(provenance: seq<Provenance>, ref: Id, ghost refs: set<Id>, ghost original: seq<Provenance>)
    returns (r: seq<Provenance>)
    requires provenance == Mapped(original, OriginSorter(refs))
    ensures r == Mapped(original, OriginSorter(refs + {ref}))
  {
    r := provenance;
    for j := 0 to |r|
      invariant |r| == |provenance|
      invariant forall k :: j <= k < |r| ==> r[k] == provenance[k]
      invariant forall k :: 0 <= k < j ==> r[k] == SortOrigins(original[k], refs + {ref})
    {
      if r[j].id == ref {
        SortFacts(original[j].originRefs, SelfKey);
        SortOfSorted(Sorted(original[j].originRefs), SelfKey);
        r := r[j := r[j].(originRefs := Sorted(r[j].originRefs))];
      }
    }
  }

  method NormalizeRecursiveBasis(b: RecursiveBasis) returns (r: RecursiveBasis)
    ensures r == Normalized(b)
  {
    var a := b.ancestors;
    var derivations := SortBy(a.derivations, DerivationId);
    var provenance := SortBy(a.provenance, ProvenanceId);
    ghost var byId, original := derivations, provenance;
    assert Mapped(original, OriginSorter({})) == original;
    for i := 0 to |derivations|
      invariant |derivations| == |byId|
      invariant forall k :: i <= k < |byId| ==> derivations[k] == byId[k]
      invariant forall k :: 0 <= k < i ==> derivations[k] == SortParents(byId[k])
      invariant provenance == Mapped(original, OriginSorter(Refs(byId[..i], DerivationProvenanceRef)))
    {
      RefsStep(byId, i, DerivationProvenanceRef);
      provenance := SortMatchingOrigins(
        provenance, derivations[i].provenanceRef, Refs(byId[..i], DerivationProvenanceRef), original);
      derivations := derivations[i := derivations[i].(parents := Sorted(derivations[i].parents))];
    }
    assert byId[..|byId|] == byId;
    assert derivations == Mapped(byId, SortParents);
    SortMapped(a.derivations, DerivationId, SortParents);
    RefsPermuted(a);
    SortMapped(a.provenance, ProvenanceId, OriginSorter(SortedRefs(a)));
    r := b.(
      ancestors := a.(
        nodes := SortBy(a.nodes, NodeId), edges := SortBy(a.edges, EdgeId), payloads := SortBy(a.payloads, PayloadId),
        provenance := provenance, temporal := SortBy(a.temporal, TemporalId),
        integrity := SortBy(a.integrity, IntegrityId), derivations := derivations),
      sourceLeaves := SortBy(b.sourceLeaves, LeafNode), rules := SortBy(b.rules, RuleNode));
  }

  lemma RefsPermuted(a: Artifact)
    ensures Refs(SortBy(a.derivations, DerivationId), DerivationProvenanceRef) == SortedRefs(a)
  {
    var t := SortBy(a.derivations, DerivationId);
    SortFacts(a.derivations, DerivationId);
    RefsByMembers(t, a.derivations, DerivationProvenanceRef);
  }

  lemma RefsByMembers<T, K>(s: seq<T>, t: seq<T>, ref: T -> K)
    requires forall x :: x in s <==> x in t
    ensures Refs(s, ref) == Refs(t, ref)
  {
    RefsMembers(s, ref);
    RefsMembers(t, ref);
  }

  // ----- equality up to order -----

  /** The same records, except for the order of records, of parents and of derivation origins. */
  ghost predicate SameUpToOrder(b: RecursiveBasis, b': RecursiveBasis) {
    && b'.admittedCutId == b.admittedCutId && b'.rootNodeId == b.rootNodeId
    && multiset(b'.sourceLeaves) == multiset(b.sourceLeaves)
    && multiset(b'.rules) == multiset(b.rules)
    && SameArtifactUpToOrder(b.ancestors, b'.ancestors)
  }

  ghost predicate SameArtifactUpToOrder(a: Artifact, a': Artifact) {
    && a'.schemaVersion == a.schemaVersion && a'.snapshotId == a.snapshotId
    && multiset(a'.nodes) == multiset(a.nodes)
    && multiset(a'.edges) == multiset(a.edges)
    && multiset(a'.payloads) == multiset(a.payloads)
    && multiset(a'.temporal) == multiset(a.temporal)
    && multiset(a'.integrity) == multiset(a.integrity)
    && multiset(Mapped(a'.derivations, SortParents)) == multiset(Mapped(a.derivations, SortParents))
    && multiset(Mapped(a'.provenance, OriginSorter(SortedRefs(a')))) ==
       multiset(Mapped(a.provenance, OriginSorter(SortedRefs(a))))
  }

  /** Records whose keys the seal sorts by are distinct, as every accepted basis has them. */
  ghost predicate Keyed(b: RecursiveBasis) {
    var a := b.ancestors;
    && DistinctKeys(a.nodes, NodeId) && DistinctKeys(a.edges, EdgeId) && DistinctKeys(a.payloads, PayloadId)
    && DistinctKeys(a.provenance, ProvenanceId) && DistinctKeys(a.temporal, TemporalId)
    && DistinctKeys(a.integrity, IntegrityId) && DistinctKeys(a.derivations, DerivationId)
    && DistinctKeys(b.sourceLeaves, LeafNode) && DistinctKeys(b.rules, RuleNode)
  }

  lemma AcceptedIsKeyed(env: Env, cut: AdmittedCut, b: RecursiveBasis)
    requires ClosureAccepted(env, cut, b)
    ensures Keyed(b)
  {
  }

  /** Sealing depends only on the basis up to order. */
  lemma SealForgetsOrder(b: RecursiveBasis, b': RecursiveBasis, digest: RecursiveBasis -> string)
    requires Keyed(b) && SameUpToOrder(b, b')
    ensures Sealed(b', digest) == Sealed(b, digest)
  {
    var a, a' := b.ancestors, b'.ancestors;
    SortCanonical(a.nodes, a'.nodes, NodeId);
    SortCanonical(a.edges, a'.edges, EdgeId);
    SortCanonical(a.payloads, a'.payloads, PayloadId);
    SortCanonical(a.temporal, a'.temporal, TemporalId);
    SortCanonical(a.integrity, a'.integrity, IntegrityId);
    MappedKeys(a.derivations, DerivationId, SortParents);
    SortCanonical(Mapped(a.derivations, SortParents), Mapped(a'.derivations, SortParents), DerivationId);
    var f, f' := OriginSorter(SortedRefs(a)), OriginSorter(SortedRefs(a'));
    MappedKeys(a.provenance, ProvenanceId, f);
    SortCanonical(Mapped(a.provenance, f), Mapped(a'.provenance, f'), ProvenanceId);
    SortCanonical(b.sourceLeaves, b'.sourceLeaves, LeafNode);
    SortCanonical(b.rules, b'.rules, RuleNode);
  }

  lemma SortedIdempotent(s: seq<string>)
    ensures Sorted(Sorted(s)) == Sorted(s)
  {
    SortFacts(s, SelfKey);
    SortOfSorted(Sorted(s), SelfKey);
  }

  lemma MappedTwice<T(!new)>(s: seq<T>, f: T -> T)
    requires forall x :: f(f(x)) == f(x)
    ensures Mapped(Mapped(s, f), f) == Mapped(s, f)
  {
  }

  lemma MappedSorted<T(!new)>(s: seq<T>, key: T -> string, f: T -> T)
    requires forall y :: key(f(y)) == key(y)
    requires forall x :: f(f(x)) == f(x)
    ensures multiset(Mapped(SortBy(Mapped(s, f), key), f)) == multiset(Mapped(s, f))
  {
    SortMapped(Mapped(s, f), key, f);
    MappedTwice(s, f);
    SortFacts(Mapped(s, f), key);
  }

  lemma NormalKeepsSortedRefs(a: Artifact)
    ensures SortedRefs(NormalArtifact(a)) == SortedRefs(a)
  {
    var m := Mapped(a.derivations, SortParents);
    SortFacts(m, DerivationId);
    RefsByMembers(SortBy(m, DerivationId), m, DerivationProvenanceRef);
    assert Mapped(m, DerivationProvenanceRef) == Mapped(a.derivations, DerivationProvenanceRef);
  }

  /** The normal form is one of the arrangements it stands for. */
  lemma NormalIsSameUpToOrder(b: RecursiveBasis, digest: RecursiveBasis -> string)
    ensures SameUpToOrder(b, Sealed(b, digest))
  {
    var a := b.ancestors;
    SortFacts(a.nodes, NodeId);
    SortFacts(a.edges, EdgeId);
    SortFacts(a.payloads, PayloadId);
    SortFacts(a.temporal, TemporalId);
    SortFacts(a.integrity, IntegrityId);
    SortFacts(b.sourceLeaves, LeafNode);
    SortFacts(b.rules, RuleNode);
    forall d: Derivation
      ensures SortParents(SortParents(d)) == SortParents(d)
    {
      SortedIdempotent(d.parents);
    }
    MappedSorted(a.derivations, DerivationId, SortParents);
    NormalKeepsSortedRefs(a);
    var f := OriginSorter(SortedRefs(a));
    forall p: Provenance
      ensures f(f(p)) == f(p)
    {
      SortedIdempotent(p.originRefs);
    }
    MappedSorted(a.provenance, ProvenanceId, f);
  }

  /** Sealing a sealed basis changes nothing. */
  lemma SealIdempotent(b: RecursiveBasis, digest: RecursiveBasis -> string)
    requires Keyed(b)
    ensures Sealed(Sealed(b, digest), digest) == Sealed(b, digest)
  {
    NormalIsSameUpToOrder(b, digest);
    SealForgetsOrder(b, Sealed(b, digest), digest);
  }
}
