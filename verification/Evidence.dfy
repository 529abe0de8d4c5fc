/**
 The canonical evidence records and the validation every artifact goes through.
 Digests are function parameters: nothing is assumed about them.
 */
module Evidence {
  import opened Outcomes
  import opened Ordering

  type Id = string

  datatype NodeKind = RawEvidence | SourceClaim | DerivedClaim | Candidate

  datatype Relation = SupportsClaim | Contradicts | References | Supersedes | Implements | DerivedFrom

  datatype CanonicalNode = CanonicalNode(
    id: Id, kind: NodeKind, payloadRef: Id, provenanceRef: Id, temporalRef: Id, integrityRef: Id)

  datatype CanonicalEdge = CanonicalEdge(id: Id, from: Id, to: Id, relation: Relation, provenanceRef: Id)

  datatype Payload = Payload(
    id: Id, sourceType: string, title: string, source: string, span: string, spanLocator: string,
    claim: string, applicability: string)
  {
    predicate Complete() {
      !Blank(id) && !Blank(sourceType) && !Blank(title) && !Blank(source)
    }
  }

  datatype Provenance = Provenance(
    id: Id, originRefs: seq<string>, originGroup: string, producer: string, methodName: string,
    methodVersion: string, traceRef: string, reviewRef: string)
  {
    predicate Complete() {
      && !Blank(id) && originRefs != [] && !Blank(originGroup) && !Blank(producer)
      && !Blank(methodName) && !Blank(methodVersion) && !Blank(traceRef)
      && forall origin :: origin in originRefs ==> !Blank(origin)
    }
  }

  datatype Temporal = Temporal(id: Id, body: string) {
    predicate Complete() {
      !Blank(id)
    }
  }

  datatype Integrity = Integrity(id: Id, digest: string) {
    predicate Complete() {
      !Blank(id)
    }
  }

  /** A derivation needs every one of its parents. */
  datatype Derivation = Derivation(
    useClass: string, id: Id, nodeId: Id, parents: seq<Id>, methodName: string, producer: string,
    traceRef: string, provenanceRef: Id)

  datatype Artifact = Artifact(
    schemaVersion: string, snapshotId: string, nodes: seq<CanonicalNode>, edges: seq<CanonicalEdge>,
    payloads: seq<Payload>, provenance: seq<Provenance>, temporal: seq<Temporal>,
    integrity: seq<Integrity>, derivations: seq<Derivation>)

  const CANONICAL_SCHEMA := "canonical-evidence-graph/v1"
  const HISTORICAL_SCHEMA := "canonical-evidence-graph/v2"
  const HISTORICAL_ONLY := "historical_only"

  /** Code points that Go's strings.TrimSpace removes. */
  predicate IsSpace(c: char) {
    || '\t' <= c <= '\r' || c == ' ' || c == '\U{0085}' || c == '\U{00A0}' || c == '\U{1680}'
    || '\U{2000}' <= c <= '\U{200A}' || c == '\U{2028}' || c == '\U{2029}' || c == '\U{202F}'
    || c == '\U{205F}' || c == '\U{3000}'
  }

  predicate Blank(s: string) {
    forall c :: c in s ==> IsSpace(c)
  }

  function NodeId(n: CanonicalNode): string { n.id }
  function EdgeId(e: CanonicalEdge): string { e.id }
  function PayloadId(p: Payload): string { p.id }
  function ProvenanceId(p: Provenance): string { p.id }
  function TemporalId(t: Temporal): string { t.id }
  function IntegrityId(i: Integrity): string { i.id }
  function DerivationId(d: Derivation): string { d.id }
  function DerivationNode(d: Derivation): string { d.nodeId }

  // ----- one composite key for a directed pair -----

  const NUL: char := '\0'

  predicate NulFree(s: string) {
    NUL !in s
  }

  /** The two ids joined by NUL, as the validator's edge map is keyed. */
  function PairKey(from: Id, to: Id): string {
    from + [NUL] + to
  }

  lemma {:induction false} PairKeyInjective(from: Id, to: Id, from': Id, to': Id)
    requires NulFree(from) && NulFree(from')
    requires PairKey(from, to) == PairKey(from', to')
    ensures from == from' && to == to'
  {
    var k, k' := PairKey(from, to), PairKey(from', to');
    assert k[0] == if from == "" then NUL else from[0];
    assert k'[0] == if from' == "" then NUL else from'[0];
    assert from != "" ==> from[0] in from;
    assert from' != "" ==> from'[0] in from';
    if from == "" {
      assert k[1..] == to && k'[1..] == to';
    } else {
      assert k[1..] == PairKey(from[1..], to) && k'[1..] == PairKey(from'[1..], to');
      PairKeyInjective(from[1..], to, from'[1..], to');
      assert from == [from[0]] + from[1..] && from' == [from'[0]] + from'[1..];
    }
  }

  /** Without the NUL check two different pairs share a key. */
  lemma PairKeyCollision()
    ensures PairKey("a", "b\0c") == PairKey("a\0b", "c")
  {
    assert PairKey("a", "b\0c") == ['a', NUL, 'b', NUL, 'c'];
    assert PairKey("a\0b", "c") == ['a', NUL, 'b', NUL, 'c'];
  }

  // ----- record-level checks -----

  predicate NodeValid(
    n: CanonicalNode, payloads: map<Id, Payload>, provenance: map<Id, Provenance>,
    temporal: map<Id, Temporal>, integrity: map<Id, Integrity>, digest: Payload -> string)
  {
    && !Blank(n.id)
    && n.payloadRef in payloads && n.provenanceRef in provenance
    && n.temporalRef in temporal && n.integrityRef in integrity
    && integrity[n.integrityRef].digest == digest(payloads[n.payloadRef])
  }

  predicate EdgeValid(e: CanonicalEdge, nodes: map<Id, CanonicalNode>, provenance: map<Id, Provenance>) {
    !Blank(e.id) && e.from in nodes && e.to in nodes && e.provenanceRef in provenance
  }

  predicate DerivationValid(
    d: Derivation, nodes: map<Id, CanonicalNode>, provenance: map<Id, Provenance>, derivedEdges: set<string>)
  {
    && (d.useClass == "" || d.useClass == HISTORICAL_ONLY)
    && !Blank(d.id) && !Blank(d.nodeId)
    && d.nodeId in nodes && (nodes[d.nodeId].kind == DerivedClaim || nodes[d.nodeId].kind == Candidate)
    && d.parents != [] && NoDuplicates(d.parents)
    && (forall p :: p in d.parents ==> p in nodes && PairKey(p, d.nodeId) in derivedEdges)
    && !Blank(d.methodName) && !Blank(d.producer) && !Blank(d.traceRef)
    && d.provenanceRef in provenance
  }

  // ----- what a valid artifact is -----

  function PayloadIndex(a: Artifact): map<Id, Payload> { Index(a.payloads, PayloadId) }
  function ProvenanceIndex(a: Artifact): map<Id, Provenance> { Index(a.provenance, ProvenanceId) }
  function TemporalIndex(a: Artifact): map<Id, Temporal> { Index(a.temporal, TemporalId) }
  function IntegrityIndex(a: Artifact): map<Id, Integrity> { Index(a.integrity, IntegrityId) }
  function NodeIndex(a: Artifact): map<Id, CanonicalNode> { Index(a.nodes, NodeId) }
  function DerivationIndex(a: Artifact): map<Id, Derivation> { Index(a.derivations, DerivationNode) }

  lemma NodeLookup(a: Artifact)
    requires DistinctKeys(a.nodes, NodeId)
    ensures forall n :: n in a.nodes ==> n.id in NodeIndex(a) && NodeIndex(a)[n.id] == n
    ensures forall id :: id in NodeIndex(a) ==> NodeIndex(a)[id] in a.nodes && NodeIndex(a)[id].id == id
  {
    IndexKeys(a.nodes, NodeId);
    forall n | n in a.nodes
      ensures n.id in NodeIndex(a) && NodeIndex(a)[n.id] == n
    {
      assert NodeId(n) == n.id;
    }
  }

  function DerivedPairs(edges: seq<CanonicalEdge>): set<string> {
    set e | e in edges && e.relation == DerivedFrom :: PairKey(e.from, e.to)
  }

  ghost predicate RecordsValid(a: Artifact) {
    && (a.schemaVersion == CANONICAL_SCHEMA || a.schemaVersion == HISTORICAL_SCHEMA)
    && !Blank(a.snapshotId)
    && DistinctKeys(a.payloads, PayloadId) && (forall p :: p in a.payloads ==> p.Complete())
    && DistinctKeys(a.provenance, ProvenanceId) && (forall p :: p in a.provenance ==> p.Complete())
    && DistinctKeys(a.temporal, TemporalId) && (forall t :: t in a.temporal ==> t.Complete())
    && DistinctKeys(a.integrity, IntegrityId) && (forall i :: i in a.integrity ==> i.Complete())
  }

  ghost predicate NodesValid(a: Artifact, digest: Payload -> string) {
    && DistinctKeys(a.nodes, NodeId)
    && forall n :: n in a.nodes ==>
         NodeValid(n, PayloadIndex(a), ProvenanceIndex(a), TemporalIndex(a), IntegrityIndex(a), digest)
  }

  ghost predicate EdgesValid(a: Artifact) {
    && DistinctKeys(a.edges, EdgeId)
    && forall e :: e in a.edges ==> EdgeValid(e, NodeIndex(a), ProvenanceIndex(a))
  }

  ghost predicate DerivationsValid(a: Artifact) {
    && DistinctKeys(a.derivations, DerivationId) && DistinctKeys(a.derivations, DerivationNode)
    && forall d :: d in a.derivations ==>
         && (d.useClass != "" ==> a.schemaVersion == HISTORICAL_SCHEMA)
         && DerivationValid(d, NodeIndex(a), ProvenanceIndex(a), DerivedPairs(a.edges))
  }

  /** Derived nodes have derivations, and derivation edges are declared by them. */
  ghost predicate DerivationsCover(a: Artifact) {
    && (forall n :: n in a.nodes && (n.kind == DerivedClaim || n.kind == Candidate) ==> n.id in DerivationIndex(a))
    && (forall e :: e in a.edges && e.relation == DerivedFrom ==> EdgeDeclared(e, DerivationIndex(a)))
  }

  predicate EdgeDeclared(e: CanonicalEdge, derivations: map<Id, Derivation>) {
    e.to in derivations && e.from in derivations[e.to].parents
  }

  ghost predicate ValidArtifact(a: Artifact, digest: Payload -> string) {
    RecordsValid(a) && NodesValid(a, digest) && EdgesValid(a) && DerivationsValid(a) && DerivationsCover(a)
  }

  // ----- the validator -----

  /** One more record repeats a key exactly when its key is filed already. */
  lemma IndexStep<T, K>(items: seq<T>, key: T -> K, i: nat)
    requires i < |items| && DistinctKeys(items[..i], key)
    ensures Index(items[..i + 1], key) == Index(items[..i], key)[key(items[i]) := items[i]]
    ensures key(items[i]) in Index(items[..i], key) ==> !DistinctKeys(items, key)
    ensures key(items[i]) !in Index(items[..i], key) ==> DistinctKeys(items[..i + 1], key)
  {
    IndexKeys(items[..i], key);
    assert items[..i + 1][..i] == items[..i];
    if key(items[i]) in Index(items[..i], key) {
      var k :| 0 <= k < i && items[..i][k] == Index(items[..i], key)[key(items[i])];
      assert key(items[k]) == key(items[i]);
    } else {
      assert forall k :: 0 <= k < i ==> items[..i][k] in items[..i];
    }
  }

  /** Fills one id map, stopping at the first incomplete or repeated record. */
  method IndexRecords<T>(items: seq<T>, key: T -> string, complete: T -> bool) returns (r: Option<map<Id, T>>)
    ensures r.Some? <==> DistinctKeys(items, key) && forall x :: x in items ==> complete(x)
    ensures r.Some? ==> r.value == Index(items, key)
  {
    var index: map<Id, T> := map[];
    for i := 0 to |items|
      invariant index == Index(items[..i], key)
      invariant forall k :: 0 <= k < i ==> complete(items[k])
      invariant DistinctKeys(items[..i], key)
    {
      IndexStep(items, key, i);
      if !complete(items[i]) || key(items[i]) in index {
        assert items[i] in items;
        return None;
      }
      index := index[key(items[i]) := items[i]];
    }
    assert items[..|items|] == items;
    return Some(index);
  }

  /** Collects one id per record, stopping at the first record that is unacceptable or repeats an id. */
  method CollectDistinct<T, K(==)>(items: seq<T>, key: T -> K, accept: T -> bool) returns (seen: Option<set<K>>)
    ensures seen.Some? <==> DistinctKeys(items, key) && forall x :: x in items ==> accept(x)
    ensures seen.Some? ==> seen.value == Refs(items, key)
  {
    var ids: set<K> := {};
    for i := 0 to |items|
      invariant forall k :: 0 <= k < i ==> accept(items[k])
      invariant DistinctKeys(items[..i], key)
      invariant ids == Refs(items[..i], key)
    {
      RefsMembers(items[..i], key);
      RefsStep(items, i, key);
      if !accept(items[i]) || key(items[i]) in ids {
        assert items[i] in items;
        if key(items[i]) in ids {
          ghost var x :| x in items[..i] && key(x) == key(items[i]);
          ghost var k :| 0 <= k < i && items[k] == x;
          assert key(items[k]) == key(items[i]);
        }
        return None;
      }
      ids := ids + {key(items[i])};
    }
    assert items[..|items|] == items;
    return Some(ids);
  }

  method ValidateDerivation(
    d: Derivation, nodes: map<Id, CanonicalNode>, provenance: map<Id, Provenance>, derivedEdges: set<string>)
    returns (ok: bool)
    ensures ok <==> DerivationValid(d, nodes, provenance, derivedEdges)
  {
    if d.useClass != "" && d.useClass != HISTORICAL_ONLY {
      return false;
    }
    if Blank(d.id) || Blank(d.nodeId) || d.nodeId !in nodes {
      return false;
    }
    if nodes[d.nodeId].kind != DerivedClaim && nodes[d.nodeId].kind != Candidate {
      return false;
    }
    if d.parents == [] {
      return false;
    }
    var seen := {};
    for i := 0 to |d.parents|
      invariant seen == Elements(d.parents[..i]) && NoDuplicates(d.parents[..i])
      invariant forall p :: p in d.parents[..i] ==> p in nodes && PairKey(p, d.nodeId) in derivedEdges
    {
      var parent := d.parents[i];
      assert d.parents[..i + 1] == d.parents[..i] + [parent];
      if parent !in nodes || parent in seen || PairKey(parent, d.nodeId) !in derivedEdges {
        assert parent in d.parents;
        return false;
      }
      seen := seen + {parent};
    }
    assert d.parents[..|d.parents|] == d.parents;
    return !Blank(d.methodName) && !Blank(d.producer) && !Blank(d.traceRef) && d.provenanceRef in provenance;
  }

  method ValidateEdges(a: Artifact, nodes: map<Id, CanonicalNode>, provenance: map<Id, Provenance>)
    returns (derivedEdges: Option<set<string>>)
    requires nodes == NodeIndex(a) && provenance == ProvenanceIndex(a)
    ensures derivedEdges.Some? <==> EdgesValid(a)
    ensures derivedEdges.Some? ==> derivedEdges.value == DerivedPairs(a.edges)
  {
    var index := IndexRecords(a.edges, EdgeId, (e: CanonicalEdge) => EdgeValid(e, nodes, provenance));
    if index.None? {
      return None;
    }
    var pairs := {};
    for i := 0 to |a.edges|
      invariant pairs == DerivedPairs(a.edges[..i])
    {
      assert a.edges[..i + 1] == a.edges[..i] + [a.edges[i]];
      if a.edges[i].relation == DerivedFrom {
        pairs := pairs + {PairKey(a.edges[i].from, a.edges[i].to)};
      }
    }
    assert a.edges[..|a.edges|] == a.edges;
    return Some(pairs);
  }

  method ValidateDerivations(
    a: Artifact, nodes: map<Id, CanonicalNode>, provenance: map<Id, Provenance>, derivedEdges: set<string>)
    returns (r: Option<map<Id, Derivation>>)
    requires nodes == NodeIndex(a) && provenance == ProvenanceIndex(a) && derivedEdges == DerivedPairs(a.edges)
    ensures r.Some? <==> DerivationsValid(a)
    ensures r.Some? ==> r.value == DerivationIndex(a)
  {
    for i := 0 to |a.derivations|
      invariant forall d :: d in a.derivations[..i] ==>
                  && (d.useClass != "" ==> a.schemaVersion == HISTORICAL_SCHEMA)
                  && DerivationValid(d, nodes, provenance, derivedEdges)
    {
      var d := a.derivations[i];
      assert a.derivations[..i + 1] == a.derivations[..i] + [d];
      assert d in a.derivations;
      if d.useClass != "" && a.schemaVersion != HISTORICAL_SCHEMA {
        return None;
      }
      var ok := ValidateDerivation(d, nodes, provenance, derivedEdges);
      if !ok {
        return None;
      }
    }
    assert a.derivations[..|a.derivations|] == a.derivations;
    var byId := IndexRecords(a.derivations, DerivationId, d => true);
    if byId.None? {
      return None;
    }
    r := IndexRecords(a.derivations, DerivationNode, d => true);
  }

  method ValidateArtifact(a: Artifact, digest: Payload -> string) returns (ok: bool)
    ensures ok <==> ValidArtifact(a, digest)
  {
    if a.schemaVersion != CANONICAL_SCHEMA && a.schemaVersion != HISTORICAL_SCHEMA {
      return false;
    }
    if Blank(a.snapshotId) {
      return false;
    }
    var payloads := IndexRecords(a.payloads, PayloadId, (p: Payload) => p.Complete());
    if payloads.None? {
      return false;
    }
    var provenance := IndexRecords(a.provenance, ProvenanceId, (p: Provenance) => p.Complete());
    if provenance.None? {
      return false;
    }
    var temporal := IndexRecords(a.temporal, TemporalId, (t: Temporal) => t.Complete());
    if temporal.None? {
      return false;
    }
    var integrity := IndexRecords(a.integrity, IntegrityId, (i: Integrity) => i.Complete());
    if integrity.None? {
      return false;
    }
    var nodes := IndexRecords(
      a.nodes, NodeId,
      (n: CanonicalNode) => NodeValid(n, payloads.value, provenance.value, temporal.value, integrity.value, digest));
    if nodes.None? {
      return false;
    }
    var derivedEdges := ValidateEdges(a, nodes.value, provenance.value);
    if derivedEdges.None? {
      return false;
    }
    var derivations := ValidateDerivations(a, nodes.value, provenance.value, derivedEdges.value);
    if derivations.None? {
      return false;
    }
    ok := CheckCoverage(a, derivations.value);
  }

  method CheckCoverage(a: Artifact, derivations: map<Id, Derivation>) returns (ok: bool)
    requires derivations == DerivationIndex(a)
    ensures ok <==> DerivationsCover(a)
  {
    for i := 0 to |a.nodes|
      invariant forall k :: 0 <= k < i && (a.nodes[k].kind == DerivedClaim || a.nodes[k].kind == Candidate) ==>
                  a.nodes[k].id in derivations
    {
      if (a.nodes[i].kind == DerivedClaim || a.nodes[i].kind == Candidate) && a.nodes[i].id !in derivations {
        assert a.nodes[i] in a.nodes;
        return false;
      }
    }
    for i := 0 to |a.edges|
      invariant forall k :: 0 <= k < i && a.edges[k].relation == DerivedFrom ==> EdgeDeclared(a.edges[k], derivations)
    {
      if a.edges[i].relation == DerivedFrom && !EdgeDeclared(a.edges[i], derivations) {
        assert a.edges[i] in a.edges;
        return false;
      }
    }
    return true;
  }
}
