/**
 What an accepted recursive basis says, read off its lists alone: record by record and
 field by field, without the validator's maps, walk, counts or matching predicates.
 */
module PlainClosure {
  import opened Ordering
  import opened Evidence
  import opened AdmittedCuts
  import opened ClosureHeight
  import opened RecursiveClosure

  // ----- the artifact -----

  ghost predicate PayloadsPlain(a: Artifact) {
    && (forall i, j :: 0 <= i < j < |a.payloads| ==> a.payloads[i].id != a.payloads[j].id)
    && forall p :: p in a.payloads ==> !Blank(p.id) && !Blank(p.sourceType) && !Blank(p.title) && !Blank(p.source)
  }

  ghost predicate ProvenancePlain(a: Artifact) {
    && (forall i, j :: 0 <= i < j < |a.provenance| ==> a.provenance[i].id != a.provenance[j].id)
    && forall r :: r in a.provenance ==>
         && !Blank(r.id) && !Blank(r.originGroup) && !Blank(r.producer) && !Blank(r.methodName)
         && !Blank(r.methodVersion) && !Blank(r.traceRef)
         && r.originRefs != [] && forall o :: o in r.originRefs ==> !Blank(o)
  }

  ghost predicate MarksPlain(a: Artifact) {
    && (forall i, j :: 0 <= i < j < |a.temporal| ==> a.temporal[i].id != a.temporal[j].id)
    && (forall i, j :: 0 <= i < j < |a.integrity| ==> a.integrity[i].id != a.integrity[j].id)
    && (forall t :: t in a.temporal ==> !Blank(t.id))
    && (forall i :: i in a.integrity ==> !Blank(i.id))
  }

  ghost predicate HasProvenance(a: Artifact, id: Id) {
    exists r :: r in a.provenance && r.id == id
  }

  ghost predicate HasTemporal(a: Artifact, id: Id) {
    exists t :: t in a.temporal && t.id == id
  }

  ghost predicate HasNode(a: Artifact, id: Id) {
    exists n :: n in a.nodes && n.id == id
  }

  /** The payload a node shows is the one its integrity record vouches for. */
  ghost predicate Vouched(a: Artifact, digest: Payload -> string, n: CanonicalNode) {
    exists p, i :: p in a.payloads && i in a.integrity
                   && p.id == n.payloadRef && i.id == n.integrityRef && i.digest == digest(p)
  }

  ghost predicate NodePlain(a: Artifact, digest: Payload -> string, n: CanonicalNode) {
    !Blank(n.id) && Vouched(a, digest, n) && HasProvenance(a, n.provenanceRef) && HasTemporal(a, n.temporalRef)
  }

  ghost predicate EdgePlain(a: Artifact, e: CanonicalEdge) {
    !Blank(e.id) && HasNode(a, e.from) && HasNode(a, e.to) && HasProvenance(a, e.provenanceRef)
  }

  ghost predicate ParentLinked(a: Artifact, d: Derivation, p: Id) {
    HasNode(a, p) && exists e :: e in a.edges && e.relation == DerivedFrom && e.from == p && e.to == d.nodeId
  }

  ghost predicate DerivesNode(a: Artifact, d: Derivation) {
    exists n :: n in a.nodes && n.id == d.nodeId && (n.kind == DerivedClaim || n.kind == Candidate)
  }

  ghost predicate DerivationPlain(a: Artifact, d: Derivation) {
    && (d.useClass == "" || (d.useClass == "historical_only" && a.schemaVersion == "canonical-evidence-graph/v2"))
    && !Blank(d.id) && !Blank(d.nodeId) && DerivesNode(a, d)
    && d.parents != [] && (forall i, j :: 0 <= i < j < |d.parents| ==> d.parents[i] != d.parents[j])
    && (forall p :: p in d.parents ==> ParentLinked(a, d, p))
    && !Blank(d.methodName) && !Blank(d.producer) && !Blank(d.traceRef) && HasProvenance(a, d.provenanceRef)
  }

  /** A derived node has its derivation, and a derived_from edge starts at a parent of its target's. */
  ghost predicate Declared(a: Artifact, e: CanonicalEdge) {
    exists d :: d in a.derivations && d.nodeId == e.to && e.from in d.parents
  }

  ghost predicate HasDerivation(a: Artifact, id: Id) {
    exists d :: d in a.derivations && d.nodeId == id
  }

  ghost predicate NodesPlain(a: Artifact, digest: Payload -> string) {
    && (forall i, j :: 0 <= i < j < |a.nodes| ==> a.nodes[i].id != a.nodes[j].id)
    && forall n :: n in a.nodes ==> NodePlain(a, digest, n)
  }

  ghost predicate EdgesPlain(a: Artifact) {
    && (forall i, j :: 0 <= i < j < |a.edges| ==> a.edges[i].id != a.edges[j].id)
    && forall e :: e in a.edges ==> EdgePlain(a, e)
  }

  ghost predicate DerivationsPlain(a: Artifact) {
    && (forall i, j :: 0 <= i < j < |a.derivations| ==>
          a.derivations[i].id != a.derivations[j].id && a.derivations[i].nodeId != a.derivations[j].nodeId)
    && forall d :: d in a.derivations ==> DerivationPlain(a, d)
  }

  ghost predicate CoveragePlain(a: Artifact) {
    && (forall n :: n in a.nodes && (n.kind == DerivedClaim || n.kind == Candidate) ==> HasDerivation(a, n.id))
    && (forall e :: e in a.edges && e.relation == DerivedFrom ==> Declared(a, e))
  }

  ghost predicate ArtifactPlain(a: Artifact, digest: Payload -> string) {
    && (a.schemaVersion == "canonical-evidence-graph/v1" || a.schemaVersion == "canonical-evidence-graph/v2")
    && !Blank(a.snapshotId)
    && PayloadsPlain(a) && ProvenancePlain(a) && MarksPlain(a)
    && NodesPlain(a, digest) && EdgesPlain(a) && DerivationsPlain(a) && CoveragePlain(a)
  }

  lemma Lookup<T>(s: seq<T>, key: T -> string, k: string)
    requires DistinctKeys(s, key)
    ensures k in Index(s, key) ==> Index(s, key)[k] in s && key(Index(s, key)[k]) == k
    ensures forall x :: x in s && key(x) == k ==> k in Index(s, key) && Index(s, key)[k] == x
  {
    IndexKeys(s, key);
  }

  lemma ListsPlain(a: Artifact)
    ensures RecordsValid(a) <==>
            && (a.schemaVersion == "canonical-evidence-graph/v1" || a.schemaVersion == "canonical-evidence-graph/v2")
            && !Blank(a.snapshotId) && PayloadsPlain(a) && ProvenancePlain(a) && MarksPlain(a)
  {
  }

  lemma ProvenanceListed(a: Artifact, id: Id)
    requires RecordsValid(a)
    ensures id in ProvenanceIndex(a) <==> HasProvenance(a, id)
  {
    Lookup(a.provenance, ProvenanceId, id);
    if HasProvenance(a, id) {
      var r :| r in a.provenance && r.id == id;
      assert ProvenanceId(r) == id;
    }
  }

  lemma TemporalListed(a: Artifact, id: Id)
    requires RecordsValid(a)
    ensures id in TemporalIndex(a) <==> HasTemporal(a, id)
  {
    Lookup(a.temporal, TemporalId, id);
    if HasTemporal(a, id) {
      var t :| t in a.temporal && t.id == id;
      assert TemporalId(t) == id;
    }
  }

  lemma NodeListed(a: Artifact, id: Id)
    requires DistinctKeys(a.nodes, NodeId)
    ensures id in NodeIndex(a) <==> HasNode(a, id)
    ensures forall n :: n in a.nodes && n.id == id ==> id in NodeIndex(a) && NodeIndex(a)[id] == n
    ensures id in NodeIndex(a) ==> NodeIndex(a)[id] in a.nodes && NodeIndex(a)[id].id == id
  {
    NodeLookup(a);
  }

  lemma DerivationListed(a: Artifact, id: Id)
    requires DistinctKeys(a.derivations, DerivationNode)
    ensures id in DerivationIndex(a) <==> HasDerivation(a, id)
    ensures forall d :: d in a.derivations && d.nodeId == id ==> id in DerivationIndex(a) && DerivationIndex(a)[id] == d
    ensures id in DerivationIndex(a) ==> DerivationIndex(a)[id] in a.derivations && DerivationIndex(a)[id].nodeId == id
  {
    Lookup(a.derivations, DerivationNode, id);
    forall d | d in a.derivations && d.nodeId == id
      ensures id in DerivationIndex(a) && DerivationIndex(a)[id] == d
    {
      assert DerivationNode(d) == id;
    }
  }

  lemma VouchedListed(a: Artifact, digest: Payload -> string, n: CanonicalNode)
    requires RecordsValid(a)
    ensures Vouched(a, digest, n) <==>
            && n.payloadRef in PayloadIndex(a) && n.integrityRef in IntegrityIndex(a)
            && IntegrityIndex(a)[n.integrityRef].digest == digest(PayloadIndex(a)[n.payloadRef])
  {
    Lookup(a.payloads, PayloadId, n.payloadRef);
    Lookup(a.integrity, IntegrityId, n.integrityRef);
    if Vouched(a, digest, n) {
      var p, i :| p in a.payloads && i in a.integrity
                  && p.id == n.payloadRef && i.id == n.integrityRef && i.digest == digest(p);
      assert PayloadId(p) == n.payloadRef && IntegrityId(i) == n.integrityRef;
    }
  }

  lemma OneNodePlain(a: Artifact, digest: Payload -> string, n: CanonicalNode)
    requires RecordsValid(a)
    ensures NodeValid(n, PayloadIndex(a), ProvenanceIndex(a), TemporalIndex(a), IntegrityIndex(a), digest) <==>
            NodePlain(a, digest, n)
  {
    VouchedListed(a, digest, n);
    ProvenanceListed(a, n.provenanceRef);
    TemporalListed(a, n.temporalRef);
  }

  lemma OneEdgePlain(a: Artifact, e: CanonicalEdge)
    requires RecordsValid(a) && DistinctKeys(a.nodes, NodeId)
    ensures EdgeValid(e, NodeIndex(a), ProvenanceIndex(a)) <==> EdgePlain(a, e)
  {
    NodeListed(a, e.from);
    NodeListed(a, e.to);
    ProvenanceListed(a, e.provenanceRef);
  }

  ghost predicate NulFreeNodes(a: Artifact) {
    forall n :: n in a.nodes ==> NulFree(n.id)
  }

  lemma OneParentPlain(a: Artifact, d: Derivation, p: Id)
    requires DistinctKeys(a.nodes, NodeId) && NulFreeNodes(a) && EdgesValid(a) && d.nodeId in NodeIndex(a)
    ensures p in NodeIndex(a) && PairKey(p, d.nodeId) in DerivedPairs(a.edges) <==> ParentLinked(a, d, p)
  {
    NodeListed(a, p);
    if p in NodeIndex(a) && PairKey(p, d.nodeId) in DerivedPairs(a.edges) {
      var e :| e in a.edges && e.relation == DerivedFrom && PairKey(e.from, e.to) == PairKey(p, d.nodeId);
      NodeListed(a, e.from);
      PairKeyInjective(e.from, e.to, p, d.nodeId);
    }
  }

  lemma OneDerivationPlain(a: Artifact, digest: Payload -> string, d: Derivation)
    requires RecordsValid(a) && NodesValid(a, digest) && EdgesValid(a) && NulFreeNodes(a)
    ensures DerivationPlain(a, d) <==>
            && (d.useClass != "" ==> a.schemaVersion == HISTORICAL_SCHEMA)
            && DerivationValid(d, NodeIndex(a), ProvenanceIndex(a), DerivedPairs(a.edges))
  {
    NodeListed(a, d.nodeId);
    ProvenanceListed(a, d.provenanceRef);
    if d.nodeId in NodeIndex(a) {
      forall p | p in d.parents
        ensures p in NodeIndex(a) && PairKey(p, d.nodeId) in DerivedPairs(a.edges) <==> ParentLinked(a, d, p)
      {
        OneParentPlain(a, d, p);
      }
    }
  }

  lemma CoverageListed(a: Artifact)
    requires DistinctKeys(a.derivations, DerivationNode)
    ensures DerivationsCover(a) <==> CoveragePlain(a)
  {
    forall n | n in a.nodes
      ensures n.id in DerivationIndex(a) <==> HasDerivation(a, n.id)
    {
      DerivationListed(a, n.id);
    }
    forall e | e in a.edges
      ensures EdgeDeclared(e, DerivationIndex(a)) <==> Declared(a, e)
    {
      DerivationListed(a, e.to);
    }
  }

  lemma NodesListed(a: Artifact, digest: Payload -> string)
    requires RecordsValid(a)
    ensures NodesValid(a, digest) <==> NodesPlain(a, digest)
  {
    forall n | n in a.nodes
      ensures NodeValid(n, PayloadIndex(a), ProvenanceIndex(a), TemporalIndex(a), IntegrityIndex(a), digest) <==>
              NodePlain(a, digest, n)
    {
      OneNodePlain(a, digest, n);
    }
  }

  lemma EdgesListed(a: Artifact)
    requires RecordsValid(a) && DistinctKeys(a.nodes, NodeId)
    ensures EdgesValid(a) <==> EdgesPlain(a)
  {
    forall e | e in a.edges
      ensures EdgeValid(e, NodeIndex(a), ProvenanceIndex(a)) <==> EdgePlain(a, e)
    {
      OneEdgePlain(a, e);
    }
  }

  lemma DerivationsListed(a: Artifact, digest: Payload -> string)
    requires RecordsValid(a) && NodesValid(a, digest) && EdgesValid(a) && NulFreeNodes(a)
    ensures DerivationsValid(a) <==> DerivationsPlain(a)
  {
    forall d | d in a.derivations
      ensures DerivationPlain(a, d) <==>
              && (d.useClass != "" ==> a.schemaVersion == HISTORICAL_SCHEMA)
              && DerivationValid(d, NodeIndex(a), ProvenanceIndex(a), DerivedPairs(a.edges))
    {
      OneDerivationPlain(a, digest, d);
    }
  }

  /** Validation means the plain reading, as long as node ids hold no NUL. */
  lemma ValidPlainly(a: Artifact, digest: Payload -> string)
    requires NulFreeNodes(a)
    ensures ValidArtifact(a, digest) <==> ArtifactPlain(a, digest)
  {
    ListsPlain(a);
    if RecordsValid(a) {
      NodesListed(a, digest);
      if NodesValid(a, digest) {
        EdgesListed(a);
        if EdgesValid(a) {
          DerivationsListed(a, digest);
          if DerivationsValid(a) {
            CoverageListed(a);
          }
        }
      }
    }
  }

  // ----- nodes and edges against the admitted cut -----

  /** The derivation that the specification names, with one provenance record listing exactly its parents. */
  ghost predicate DerivedPlain(a: Artifact, s: Specification, p: Payload, n: CanonicalNode) {
    && s.sourceTitle == p.title && s.sourceLocation == p.source
    && exists d, r :: d in a.derivations && r in a.provenance && d.nodeId == n.id && d.id == s.derivationId
                      && r.id == d.provenanceRef && r.id == n.provenanceRef
                      && r.methodName == d.methodName && r.producer == d.producer && r.traceRef == d.traceRef
                      && (forall i, j :: 0 <= i < j < |r.originRefs| ==> r.originRefs[i] != r.originRefs[j])
                      && forall x :: x in r.originRefs <==> x in d.parents
  }

  /** The admitted specification of this id says what the node's own payload says. */
  ghost predicate Admitted(env: Env, cut: AdmittedCut, a: Artifact, n: CanonicalNode) {
    && (n.kind == DerivedClaim || n.kind == SourceClaim)
    && exists s, p :: s in cut.specifications && p in a.payloads && s.nodeId == n.id && p.id == n.payloadRef
                      && s.nodeKind == n.kind && s.claimText == p.claim && s.claimHash == env.excerptHash(p.claim)
                      && (n.kind == DerivedClaim ==> DerivedPlain(a, s, p, n))
  }

  /** One declared parent, with its two ends in order as provenance, made as its derivation was. */
  ghost predicate ParentEdge(a: Artifact, e: CanonicalEdge) {
    && e.relation == DerivedFrom
    && exists d, r :: d in a.derivations && r in a.provenance && d.nodeId == e.to && e.from in d.parents
                      && r.id == e.provenanceRef && r.originRefs == [e.from, e.to]
                      && r.methodName == d.methodName && r.producer == d.producer && r.traceRef == d.traceRef
  }

  lemma PayloadListed(a: Artifact, id: Id)
    requires RecordsValid(a)
    ensures id in PayloadIndex(a) ==> PayloadIndex(a)[id] in a.payloads && PayloadIndex(a)[id].id == id
    ensures forall p :: p in a.payloads && p.id == id ==> id in PayloadIndex(a) && PayloadIndex(a)[id] == p
  {
    Lookup(a.payloads, PayloadId, id);
    forall p | p in a.payloads && p.id == id
      ensures id in PayloadIndex(a) && PayloadIndex(a)[id] == p
    {
      assert PayloadId(p) == id;
    }
  }

  lemma RecordListed(a: Artifact, id: Id)
    requires RecordsValid(a)
    ensures id in ProvenanceIndex(a) ==> ProvenanceIndex(a)[id] in a.provenance && ProvenanceIndex(a)[id].id == id
    ensures forall r :: r in a.provenance && r.id == id ==> id in ProvenanceIndex(a) && ProvenanceIndex(a)[id] == r
  {
    Lookup(a.provenance, ProvenanceId, id);
    forall r | r in a.provenance && r.id == id
      ensures id in ProvenanceIndex(a) && ProvenanceIndex(a)[id] == r
    {
      assert ProvenanceId(r) == id;
    }
  }

  lemma SpecificationListed(cut: AdmittedCut, id: Id)
    requires CanonicalCut(cut)
    ensures id in Specifications(cut) ==>
              Specifications(cut)[id] in cut.specifications && Specifications(cut)[id].nodeId == id
    ensures forall s :: s in cut.specifications && s.nodeId == id ==>
              id in Specifications(cut) && Specifications(cut)[id] == s
  {
    CutKeysDistinct(cut);
    Lookup(cut.specifications, SpecificationId, id);
    forall s | s in cut.specifications && s.nodeId == id
      ensures id in Specifications(cut) && Specifications(cut)[id] == s
    {
      assert SpecificationId(s) == id;
    }
  }

  lemma DerivedListed(cut: AdmittedCut, a: Artifact, digest: Payload -> string, n: CanonicalNode)
    requires CanonicalCut(cut) && ValidArtifact(a, digest) && n in a.nodes && n.kind == DerivedClaim
    requires n.id in Specifications(cut)
    ensures DerivedMatches(cut, a, n) <==>
            DerivedPlain(a, Specifications(cut)[n.id], PayloadIndex(a)[n.payloadRef], n)
  {
    DerivationOf(a, digest, n);
    DerivationListed(a, n.id);
    RecordListed(a, DerivationIndex(a)[n.id].provenanceRef);
  }

  lemma AdmittedListed(env: Env, cut: AdmittedCut, a: Artifact, n: CanonicalNode)
    requires CanonicalCut(cut) && ValidArtifact(a, env.digest) && n in a.nodes
    ensures NodeMatches(env, cut, a, n) <==> Admitted(env, cut, a, n)
  {
    SpecificationListed(cut, n.id);
    PayloadListed(a, n.payloadRef);
    if n.kind == DerivedClaim && n.id in Specifications(cut) {
      DerivedListed(cut, a, env.digest, n);
    }
  }

  lemma ParentEdgeListed(a: Artifact, digest: Payload -> string, e: CanonicalEdge)
    requires ValidArtifact(a, digest)
    ensures EdgeMatches(a, e) <==> ParentEdge(a, e)
  {
    DerivationListed(a, e.to);
    RecordListed(a, e.provenanceRef);
  }

  // ----- rules and source reviews -----

  ghost predicate RulesPlain(a: Artifact, rules: seq<DerivationRule>) {
    && (forall i, j :: 0 <= i < j < |rules| ==> rules[i].nodeId != rules[j].nodeId)
    && (forall r :: r in rules ==> exists d :: d in a.derivations && d.nodeId == r.nodeId && d.id == r.derivationId)
    && (forall d :: d in a.derivations ==> exists r :: r in rules && r.nodeId == d.nodeId && r.derivationId == d.id)
  }

  ghost predicate ReviewsPlain(env: Env, cut: AdmittedCut, a: Artifact, leaves: seq<SourceLeaf>) {
    && (forall i, j :: 0 <= i < j < |leaves| ==> leaves[i].specificationNodeId != leaves[j].specificationNodeId)
    && (forall l :: l in leaves ==>
          env.leafValid(cut, l) && exists n :: n in a.nodes && n.id == l.specificationNodeId && n.kind == SourceClaim)
    && (forall n :: n in a.nodes && n.kind == SourceClaim ==> exists l :: l in leaves && l.specificationNodeId == n.id)
  }

  lemma RulesListed(a: Artifact, rules: seq<DerivationRule>)
    requires DerivationsValid(a)
    ensures RulesCover(a, rules) <==> RulesPlain(a, rules)
  {
    forall r
      ensures RuleMatches(a, r) <==> exists d :: d in a.derivations && d.nodeId == r.nodeId && d.id == r.derivationId
    {
      DerivationListed(a, r.nodeId);
    }
    if RulesCover(a, rules) {
      forall d | d in a.derivations
        ensures exists r :: r in rules && r.nodeId == d.nodeId && r.derivationId == d.id
      {
        var r :| r in rules && r.nodeId == d.nodeId;
        assert RuleMatches(a, r);
        DerivationListed(a, d.nodeId);
      }
    }
  }

  lemma ReviewsListed(env: Env, cut: AdmittedCut, a: Artifact, leaves: seq<SourceLeaf>)
    requires DistinctKeys(a.nodes, NodeId)
    ensures LeavesCover(env, cut, a, leaves) <==> ReviewsPlain(env, cut, a, leaves)
  {
    forall id
      ensures IsSourceNode(a, id) <==> exists n :: n in a.nodes && n.id == id && n.kind == SourceClaim
    {
      NodeListed(a, id);
    }
  }

  // ----- paths of derivations -----

  /** Each derivation on the path has the next id among its parents. */
  ghost predicate Path(a: Artifact, p: seq<Id>) {
    |p| > 0 && forall i :: 0 <= i < |p| - 1 ==> Parent(a, p[i], p[i + 1])
  }

  ghost predicate Parent(a: Artifact, x: Id, y: Id) {
    exists d :: d in a.derivations && d.nodeId == x && y in d.parents
  }

  ghost predicate PathTo(a: Artifact, root: Id, p: seq<Id>, x: Id) {
    Path(a, p) && p[0] == root && p[|p| - 1] == x
  }

  /** A node of the artifact that is no source claim. */
  ghost predicate Layered(a: Artifact, id: Id) {
    exists n :: n in a.nodes && n.id == id && n.kind != SourceClaim
  }

  /**
   Every path from the root stays among the nodes, repeats nothing and has at most eight
   derived nodes; every node lies on one.
   */
  ghost predicate PathsPlain(a: Artifact, root: Id) {
    && (forall p :: Path(a, p) && p[0] == root ==>
          && HasNode(a, p[|p| - 1])
          && (forall i, j :: 0 <= i < j < |p| ==> p[i] != p[j])
          && (|p| < 9 || (|p| == 9 && !Layered(a, p[8]))))
    && (forall n :: n in a.nodes ==> exists p :: PathTo(a, root, p, n.id))
  }

  lemma StepIsParent(a: Artifact, digest: Payload -> string, x: Id, y: Id)
    requires ValidArtifact(a, digest)
    ensures ClosureGraph(a).Step(x, y) <==> Parent(a, x, y)
    ensures ClosureGraph(a).Inner(x) <==> Layered(a, x)
    ensures x in ClosureGraph(a).nodes <==> HasNode(a, x)
  {
    NodeListed(a, x);
    DerivationListed(a, x);
    if Parent(a, x, y) {
      var d :| d in a.derivations && d.nodeId == x && y in d.parents;
      assert DerivationIndex(a)[x] == d;
    }
  }

  lemma {:induction false} ChainIsPath(a: Artifact, digest: Payload -> string, p: seq<Id>)
    requires ValidArtifact(a, digest)
    ensures ClosureGraph(a).Chain(p) <==> Path(a, p)
  {
    if |p| > 1 {
      StepIsParent(a, digest, p[0], p[1]);
      ChainIsPath(a, digest, p[1..]);
      if Path(a, p[1..]) && Parent(a, p[0], p[1]) {
        forall i | 0 <= i < |p| - 1
          ensures Parent(a, p[i], p[i + 1])
        {
          if i > 0 {
            assert Parent(a, p[1..][i - 1], p[1..][i]);
          }
        }
      }
      if Path(a, p) {
        forall i | 0 <= i < |p[1..]| - 1
          ensures Parent(a, p[1..][i], p[1..][i + 1])
        {
          assert Parent(a, p[i + 1], p[i + 2]);
        }
      }
    }
  }

  lemma ReachedByPath(a: Artifact, digest: Payload -> string, root: Id, x: Id)
    requires ValidArtifact(a, digest)
    ensures ClosureGraph(a).Reached(root, x) <==> exists p :: PathTo(a, root, p, x)
  {
    if ClosureGraph(a).Reached(root, x) {
      var p :| ClosureGraph(a).ChainTo(root, p, x);
      ChainIsPath(a, digest, p);
      assert PathTo(a, root, p, x);
    }
    if p :| PathTo(a, root, p, x) {
      ChainIsPath(a, digest, p);
      assert ClosureGraph(a).ChainTo(root, p, x);
    }
  }

  lemma PartIsPath(a: Artifact, p: seq<Id>, i: nat, j: nat)
    requires Path(a, p) && i <= j < |p|
    ensures Path(a, p[i..j + 1]) && p[i..j + 1][0] == p[i] && p[i..j + 1][j - i] == p[j]
  {
    var part := p[i..j + 1];
    forall k | 0 <= k < |part| - 1
      ensures Parent(a, part[k], part[k + 1])
    {
      assert Parent(a, p[i + k], p[i + k + 1]);
    }
  }

  lemma LoopIsCycle(a: Artifact, digest: Payload -> string, root: Id, x: Id, to: seq<Id>, loop: seq<Id>)
    requires ValidArtifact(a, digest) && PathTo(a, root, to, x) && PathTo(a, x, loop, x) && |loop| > 1
    ensures ClosureGraph(a).HasCycle(root)
  {
    ReachedByPath(a, digest, root, x);
    ChainIsPath(a, digest, loop);
    assert ClosureGraph(a).ChainTo(x, loop, x);
  }

  lemma RepeatIsCycle(a: Artifact, digest: Payload -> string, root: Id, p: seq<Id>, i: nat, j: nat)
    requires ValidArtifact(a, digest) && Path(a, p) && p[0] == root && i < j < |p| && p[i] == p[j]
    ensures ClosureGraph(a).HasCycle(root)
  {
    PartIsPath(a, p, 0, i);
    PartIsPath(a, p, i, j);
    LoopIsCycle(a, digest, root, p[i], p[0..i + 1], p[i..j + 1]);
  }

  lemma CycleRepeats(a: Artifact, digest: Payload -> string, root: Id) returns (r: seq<Id>, i: nat, j: nat)
    requires ValidArtifact(a, digest) && ClosureGraph(a).HasCycle(root)
    ensures Path(a, r) && r[0] == root && i < j < |r| && r[i] == r[j]
  {
    var g := ClosureGraph(a);
    var loop, x :| |loop| > 1 && g.ChainTo(x, loop, x) && g.Reached(root, x);
    ReachedByPath(a, digest, root, x);
    ChainIsPath(a, digest, loop);
    var to :| PathTo(a, root, to, x);
    r, i, j := to + loop[1..], |to| - 1, |to| + |loop| - 2;
    forall k | 0 <= k < |r| - 1
      ensures Parent(a, r[k], r[k + 1])
    {
      if k < |to| - 1 {
        assert Parent(a, to[k], to[k + 1]);
      } else {
        assert Parent(a, loop[k - i], loop[k - i + 1]);
      }
    }
  }

  lemma DeepPath(a: Artifact, digest: Payload -> string, p: seq<Id>)
    requires ValidArtifact(a, digest) && Path(a, p)
    ensures ClosureGraph(a).Layers(p) > MAX_RECURSIVE_DEPTH <==> !(|p| < 9 || (|p| == 9 && !Layered(a, p[8])))
  {
    StepIsParent(a, digest, p[|p| - 1], p[0]);
  }

  /** One path without any of the three defects that it could show. */
  lemma OnePathPlain(a: Artifact, digest: Payload -> string, root: Id, p: seq<Id>)
    requires ValidArtifact(a, digest) && ClosureGraph(a).Acceptable(root) && Path(a, p) && p[0] == root
    ensures HasNode(a, p[|p| - 1]) && (|p| < 9 || (|p| == 9 && !Layered(a, p[8])))
    ensures forall i, j :: 0 <= i < j < |p| ==> p[i] != p[j]
  {
    var x := p[|p| - 1];
    assert PathTo(a, root, p, x);
    ReachedByPath(a, digest, root, x);
    StepIsParent(a, digest, x, x);
    ChainIsPath(a, digest, p);
    DeepPath(a, digest, p);
    forall i, j | 0 <= i < j < |p|
      ensures p[i] != p[j]
    {
      if p[i] == p[j] {
        RepeatIsCycle(a, digest, root, p, i, j);
      }
    }
  }

  lemma AcceptableIsPlain(a: Artifact, digest: Payload -> string, root: Id)
    requires ValidArtifact(a, digest) && ClosureGraph(a).Acceptable(root)
    ensures PathsPlain(a, root)
  {
    forall p | Path(a, p) && p[0] == root
      ensures HasNode(a, p[|p| - 1]) && (|p| < 9 || (|p| == 9 && !Layered(a, p[8])))
      ensures forall i, j :: 0 <= i < j < |p| ==> p[i] != p[j]
    {
      OnePathPlain(a, digest, root, p);
    }
    forall n | n in a.nodes
      ensures exists p :: PathTo(a, root, p, n.id)
    {
      NodeListed(a, n.id);
      ReachedByPath(a, digest, root, n.id);
    }
  }

  lemma PlainIsAcceptable(a: Artifact, digest: Payload -> string, root: Id)
    requires ValidArtifact(a, digest) && PathsPlain(a, root)
    ensures ClosureGraph(a).Acceptable(root)
  {
    var g := ClosureGraph(a);
    if g.HasMissing(root) {
      var x :| g.Reached(root, x) && x !in g.nodes;
      ReachedByPath(a, digest, root, x);
      var p :| PathTo(a, root, p, x);
      StepIsParent(a, digest, x, x);
    }
    if g.HasCycle(root) {
      var p, i, j := CycleRepeats(a, digest, root);
    }
    if g.TooDeep(root) {
      var p :| g.Chain(p) && p[0] == root && g.Layers(p) > MAX_RECURSIVE_DEPTH;
      ChainIsPath(a, digest, p);
      DeepPath(a, digest, p);
    }
    if g.HasUnrelated(root) {
      var x :| x in g.nodes && !g.Reached(root, x);
      NodeListed(a, x);
      ReachedByPath(a, digest, root, x);
    }
  }

  // ----- the whole basis -----

  /** No sidecar record is padding: each is some node's, or for provenance some edge's. */
  ghost predicate UsedPlain(a: Artifact) {
    && (forall p :: p in a.payloads ==> exists n :: n in a.nodes && n.payloadRef == p.id)
    && (forall r :: r in a.provenance ==>
          (exists n :: n in a.nodes && n.provenanceRef == r.id)
          || (exists e :: e in a.edges && e.provenanceRef == r.id))
    && (forall t :: t in a.temporal ==> exists n :: n in a.nodes && n.temporalRef == t.id)
    && (forall i :: i in a.integrity ==> exists n :: n in a.nodes && n.integrityRef == i.id)
  }

  ghost predicate RecordsPlain(env: Env, cut: AdmittedCut, a: Artifact) {
    && (forall n :: n in a.nodes ==> Admitted(env, cut, a, n))
    && (forall i, j :: 0 <= i < j < |a.edges| ==> a.edges[i].from != a.edges[j].from || a.edges[i].to != a.edges[j].to)
    && (forall e :: e in a.edges ==> ParentEdge(a, e))
    && UsedPlain(a)
  }

  ghost predicate ClosurePlain(env: Env, cut: AdmittedCut, b: RecursiveBasis) {
    var a := b.ancestors;
    && ArtifactPlain(a, env.digest) && RecordsPlain(env, cut, a)
    && (exists n :: n in a.nodes && n.id == b.rootNodeId && n.kind == DerivedClaim)
    && PathsPlain(a, b.rootNodeId) && RulesPlain(a, b.rules) && ReviewsPlain(env, cut, a, b.sourceLeaves)
  }

  lemma RecordsListed(env: Env, cut: AdmittedCut, a: Artifact)
    requires CanonicalCut(cut) && ValidArtifact(a, env.digest)
    ensures NodesMatch(env, cut, a) && EdgesMatch(a) && NoPadding(a) <==> RecordsPlain(env, cut, a)
  {
    forall n | n in a.nodes
      ensures NodeMatches(env, cut, a, n) <==> Admitted(env, cut, a, n)
    {
      AdmittedListed(env, cut, a, n);
    }
    forall e | e in a.edges
      ensures EdgeMatches(a, e) <==> ParentEdge(a, e)
    {
      ParentEdgeListed(a, env.digest, e);
    }
    PaddingListed(a);
    assert DistinctKeys(a.edges, EdgePair) <==>
           forall i, j :: 0 <= i < j < |a.edges| ==>
             a.edges[i].from != a.edges[j].from || a.edges[i].to != a.edges[j].to;
  }

  lemma PaddingListed(a: Artifact)
    ensures NoPadding(a) <==> UsedPlain(a)
  {
    assert forall p :: p in a.payloads ==>
             (PayloadUsed(a, p.id) <==> exists n :: n in a.nodes && n.payloadRef == p.id);
  }

  /**
   Acceptance is the plain reading: every node's payload says what the admitted specification
   of its id says, every edge is a declared parent with its ends as provenance, nothing is
   padding, every path of derivations from the root is short and free of repetition, and
   rules and source reviews cover derivations and source claims one for one.
   */
  lemma AcceptedPlainly(env: Env, cut: AdmittedCut, b: RecursiveBasis)
    requires CanonicalCut(cut) && NulFreeNodes(b.ancestors)
    ensures ClosureAccepted(env, cut, b) <==> ClosurePlain(env, cut, b)
  {
    var a := b.ancestors;
    ValidPlainly(a, env.digest);
    if ValidArtifact(a, env.digest) {
      RecordsListed(env, cut, a);
      NodeListed(a, b.rootNodeId);
      RulesListed(a, b.rules);
      ReviewsListed(env, cut, a, b.sourceLeaves);
      if ClosureGraph(a).Acceptable(b.rootNodeId) {
        AcceptableIsPlain(a, env.digest, b.rootNodeId);
      }
      if PathsPlain(a, b.rootNodeId) {
        PlainIsAcceptable(a, env.digest, b.rootNodeId);
      }
    }
  }
}
