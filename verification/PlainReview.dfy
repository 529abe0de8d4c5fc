/**
 The entry point's own conditions, read off the basis and the cut text by text: counts,
 byte bounds, endpoints with their content hashes, and the plain closure.
 */
module PlainReview {
  import opened Ordering
  import opened Evidence
  import opened Identity
  import opened AdmittedCuts
  import opened RecursiveClosure
  import opened ReviewBasis
  import opened DepthOne
  import opened PlainClosure

  // ----- counts and texts -----

  ghost predicate NodeText(a: Artifact, s: string) {
    exists n :: n in a.nodes && (s == n.id || s == n.payloadRef || s == n.provenanceRef || s == n.temporalRef
                                 || s == n.integrityRef)
  }

  ghost predicate EdgeText(a: Artifact, s: string) {
    exists e :: e in a.edges && (s == e.id || s == e.from || s == e.to || s == e.provenanceRef)
  }

  ghost predicate PayloadText(a: Artifact, s: string) {
    exists p :: p in a.payloads && (s == p.id || s == p.sourceType || s == p.title || s == p.source || s == p.span
                                    || s == p.spanLocator || s == p.claim || s == p.applicability)
  }

  ghost predicate ProvenanceText(a: Artifact, s: string) {
    exists r :: r in a.provenance && (s == r.id || s in r.originRefs || s == r.originGroup || s == r.producer
                                      || s == r.methodName || s == r.methodVersion || s == r.traceRef
                                      || s == r.reviewRef)
  }

  ghost predicate MarkText(a: Artifact, s: string) {
    || (exists t :: t in a.temporal && (s == t.id || s == t.body))
    || (exists i :: i in a.integrity && (s == i.id || s == i.digest))
  }

  ghost predicate DerivationText(a: Artifact, s: string) {
    exists d :: d in a.derivations && (s == d.id || s == d.nodeId || s in d.parents || s == d.methodName
                                       || s == d.producer || s == d.traceRef || s == d.provenanceRef)
  }

  ghost predicate RuleText(b: RecursiveBasis, s: string) {
    exists r :: r in b.rules && (s == r.nodeId || s == r.derivationId || s == r.ruleStatement)
  }

  ghost predicate HeadText(b: RecursiveBasis, s: string) {
    || s == b.contractVersion || s == b.id || s == b.admittedCutId || s == b.rootNodeId
    || s == b.ancestors.schemaVersion || s == b.ancestors.snapshotId
  }

  /** The texts that are bounded one by one. */
  ghost predicate Text(b: RecursiveBasis, s: string) {
    var a := b.ancestors;
    || HeadText(b, s) || NodeText(a, s) || EdgeText(a, s) || PayloadText(a, s) || ProvenanceText(a, s)
    || MarkText(a, s) || DerivationText(a, s) || RuleText(b, s)
  }

  /** The bytes of one code point (section 3 of RFC 3629). */
  function Bytes(c: char): seq<int> {
    var n := c as int;
    if n < 0x80 then [n]
    else if n < 0x800 then [0xC0 + n / 64, 0x80 + n % 64]
    else if n < 0x10000 then [0xE0 + n / 4096, 0x80 + n / 64 % 64, 0x80 + n % 64]
    else [0xF0 + n / 262144, 0x80 + n / 4096 % 64, 0x80 + n / 64 % 64, 0x80 + n % 64]
  }

  /** The code point that a leading byte and its continuations stand for. */
  function CodePoint(bytes: seq<int>): int {
    if |bytes| == 1 then bytes[0]
    else if |bytes| == 2 then (bytes[0] - 0xC0) * 64 + (bytes[1] - 0x80)
    else if |bytes| == 3 then ((bytes[0] - 0xE0) * 64 + (bytes[1] - 0x80)) * 64 + (bytes[2] - 0x80)
    else if |bytes| == 4 then
      (((bytes[0] - 0xF0) * 64 + (bytes[1] - 0x80)) * 64 + (bytes[2] - 0x80)) * 64 + (bytes[3] - 0x80)
    else 0
  }

  function Utf8(s: string): seq<int> {
    if s == "" then [] else Bytes(s[0]) + Utf8(s[1..])
  }

  lemma Halves(n: nat)
    ensures n == n / 64 * 64 + n % 64 && n / 4096 == n / 64 / 64 && n / 262144 == n / 4096 / 64
  {
  }

  lemma BytesReadBack(c: char)
    ensures CodePoint(Bytes(c)) == c as int && |Bytes(c)| == CharSize(c)
    ensures forall b :: b in Bytes(c) ==> 0 <= b < 256
  {
    var n := c as int;
    if n >= 0x80 {
      var a := n / 64;
      var b := a / 64;
      Halves(n);
      Halves(a);
      Halves(b);
    }
  }

  /** The sizes in the bounds are lengths of UTF-8 encodings. */
  lemma {:induction false} SizeIsBytes(s: string)
    ensures |Utf8(s)| == Utf8Size(s) && forall b :: b in Utf8(s) ==> 0 <= b < 256
  {
    if s != "" {
      BytesReadBack(s[0]);
      SizeIsBytes(s[1..]);
    }
  }

  ghost predicate Short(s: string) {
    NUL !in s && Utf8Size(s) <= 16384
  }

  ghost predicate CountsPlain(b: RecursiveBasis) {
    var a := b.ancestors;
    && 2 <= |a.nodes| <= 64 && 1 <= |a.edges| <= 128 && 1 <= |a.derivations| <= 63 && |b.rules| == |a.derivations|
    && 1 <= |b.sourceLeaves| <= 63 && |a.payloads| <= 64 && |a.provenance| <= 192 && |a.temporal| <= 64
    && |a.integrity| <= 64
    && (forall r :: r in a.provenance ==> |r.originRefs| <= 32)
    && (forall d :: d in a.derivations ==> 1 <= |d.parents| <= 32)
  }

  ghost predicate StatementsPlain(b: RecursiveBasis) {
    forall r :: r in b.rules ==> var s := r.ruleStatement;
      s != "" && !IsSpace(s[0]) && !IsSpace(s[|s| - 1]) && Utf8Size(s) <= 4000
  }

  ghost predicate BoundsPlain(b: RecursiveBasis) {
    CountsPlain(b) && StatementsPlain(b) && forall s :: Text(b, s) ==> Short(s)
  }

  lemma NodesShort(a: Artifact)
    ensures (forall n :: n in a.nodes ==> CleanNode(n)) <==> forall s :: NodeText(a, s) ==> Short(s)
  {
    if forall s :: NodeText(a, s) ==> Short(s) {
      forall n | n in a.nodes
        ensures CleanNode(n)
      {
        assert NodeText(a, n.id) && NodeText(a, n.payloadRef) && NodeText(a, n.provenanceRef);
        assert NodeText(a, n.temporalRef) && NodeText(a, n.integrityRef);
      }
    }
  }

  lemma EdgesShort(a: Artifact)
    ensures (forall e :: e in a.edges ==> CleanEdge(e)) <==> forall s :: EdgeText(a, s) ==> Short(s)
  {
    if forall s :: EdgeText(a, s) ==> Short(s) {
      forall e | e in a.edges
        ensures CleanEdge(e)
      {
        assert EdgeText(a, e.id) && EdgeText(a, e.from) && EdgeText(a, e.to) && EdgeText(a, e.provenanceRef);
      }
    }
  }

  lemma PayloadsShort(a: Artifact)
    ensures (forall p :: p in a.payloads ==> CleanPayload(p)) <==> forall s :: PayloadText(a, s) ==> Short(s)
  {
    if forall s :: PayloadText(a, s) ==> Short(s) {
      forall p | p in a.payloads
        ensures CleanPayload(p)
      {
        assert PayloadText(a, p.id) && PayloadText(a, p.sourceType) && PayloadText(a, p.title);
        assert PayloadText(a, p.source) && PayloadText(a, p.span) && PayloadText(a, p.spanLocator);
        assert PayloadText(a, p.claim) && PayloadText(a, p.applicability);
      }
    }
  }

  lemma ProvenanceShort(a: Artifact)
    ensures (forall r :: r in a.provenance ==> CleanProvenance(r)) <==>
            && (forall r :: r in a.provenance ==> |r.originRefs| <= 32)
            && forall s :: ProvenanceText(a, s) ==> Short(s)
  {
    if forall s :: ProvenanceText(a, s) ==> Short(s) {
      forall r | r in a.provenance && |r.originRefs| <= 32
        ensures CleanProvenance(r)
      {
        assert ProvenanceText(a, r.id) && ProvenanceText(a, r.originGroup) && ProvenanceText(a, r.producer);
        assert ProvenanceText(a, r.methodName) && ProvenanceText(a, r.methodVersion);
        assert ProvenanceText(a, r.traceRef) && ProvenanceText(a, r.reviewRef);
        assert forall o :: o in r.originRefs ==> ProvenanceText(a, o);
      }
    }
  }

  lemma MarksShort(a: Artifact)
    ensures && (forall t :: t in a.temporal ==> BoundedText(t.id) && BoundedText(t.body))
            && (forall i :: i in a.integrity ==> BoundedText(i.id) && BoundedText(i.digest))
            <==> forall s :: MarkText(a, s) ==> Short(s)
  {
    if forall s :: MarkText(a, s) ==> Short(s) {
      assert forall t :: t in a.temporal ==> MarkText(a, t.id) && MarkText(a, t.body);
      assert forall i :: i in a.integrity ==> MarkText(a, i.id) && MarkText(a, i.digest);
    }
  }

  lemma DerivationsShort(a: Artifact)
    ensures (forall d :: d in a.derivations ==> CleanDerivation(d)) <==>
            && (forall d :: d in a.derivations ==> 1 <= |d.parents| <= 32)
            && forall s :: DerivationText(a, s) ==> Short(s)
  {
    if forall s :: DerivationText(a, s) ==> Short(s) {
      forall d | d in a.derivations && 1 <= |d.parents| <= 32
        ensures CleanDerivation(d)
      {
        assert DerivationText(a, d.id) && DerivationText(a, d.nodeId) && DerivationText(a, d.methodName);
        assert DerivationText(a, d.producer) && DerivationText(a, d.traceRef) && DerivationText(a, d.provenanceRef);
        assert forall p :: p in d.parents ==> DerivationText(a, p);
      }
    }
  }

  lemma RulesShort(b: RecursiveBasis)
    ensures (forall r :: r in b.rules ==> CleanRule(r)) <==>
            StatementsPlain(b) && forall s :: RuleText(b, s) ==> Short(s)
  {
    if forall s :: RuleText(b, s) ==> Short(s) {
      assert forall r :: r in b.rules ==> RuleText(b, r.nodeId) && RuleText(b, r.derivationId);
      assert forall r :: r in b.rules ==> RuleText(b, r.ruleStatement);
    }
  }

  lemma HeadShort(b: RecursiveBasis)
    ensures && BoundedText(b.contractVersion) && BoundedText(b.id) && BoundedText(b.admittedCutId)
            && BoundedText(b.rootNodeId) && BoundedText(b.ancestors.schemaVersion)
            && BoundedText(b.ancestors.snapshotId)
            <==> forall s :: HeadText(b, s) ==> Short(s)
  {
    if forall s :: HeadText(b, s) ==> Short(s) {
      assert HeadText(b, b.contractVersion) && HeadText(b, b.id) && HeadText(b, b.admittedCutId);
      assert HeadText(b, b.rootNodeId) && HeadText(b, b.ancestors.schemaVersion);
      assert HeadText(b, b.ancestors.snapshotId);
    }
  }

  ghost predicate TextsShort(b: RecursiveBasis) {
    var a := b.ancestors;
    && (forall s :: HeadText(b, s) ==> Short(s)) && (forall s :: NodeText(a, s) ==> Short(s))
    && (forall s :: EdgeText(a, s) ==> Short(s)) && (forall s :: PayloadText(a, s) ==> Short(s))
    && (forall s :: ProvenanceText(a, s) ==> Short(s)) && (forall s :: MarkText(a, s) ==> Short(s))
    && (forall s :: DerivationText(a, s) ==> Short(s)) && (forall s :: RuleText(b, s) ==> Short(s))
  }

  lemma TextsByKind(b: RecursiveBasis)
    ensures (forall s :: Text(b, s) ==> Short(s)) <==> TextsShort(b)
  {
    if forall s :: Text(b, s) ==> Short(s) {
      assert forall s :: HeadText(b, s) ==> Text(b, s);
      assert forall s :: NodeText(b.ancestors, s) ==> Text(b, s);
      assert forall s :: EdgeText(b.ancestors, s) ==> Text(b, s);
      assert forall s :: PayloadText(b.ancestors, s) ==> Text(b, s);
      assert forall s :: ProvenanceText(b.ancestors, s) ==> Text(b, s);
      assert forall s :: MarkText(b.ancestors, s) ==> Text(b, s);
      assert forall s :: DerivationText(b.ancestors, s) ==> Text(b, s);
      assert forall s :: RuleText(b, s) ==> Text(b, s);
    }
  }

  /** The bounds check looks at every text and every list, and at nothing else. */
  lemma BoundsByText(b: RecursiveBasis)
    ensures WithinBounds(b) <==> BoundsPlain(b)
  {
    TextsByKind(b);
    HeadShort(b);
    NodesShort(b.ancestors);
    EdgesShort(b.ancestors);
    PayloadsShort(b.ancestors);
    ProvenanceShort(b.ancestors);
    MarksShort(b.ancestors);
    DerivationsShort(b.ancestors);
    RulesShort(b);
  }

  // ----- the cut -----

  /** Trimmed, not empty, without NUL, and of at most so many bytes. */
  ghost predicate Required(s: string, max: nat) {
    s != "" && !IsSpace(s[0]) && !IsSpace(s[|s| - 1]) && NUL !in s && Utf8Size(s) <= max
  }

  ghost predicate NodeName(s: string) {
    Required(s, 512) && "canon-node:" < s
  }

  ghost predicate Quoted(excerptHash: string -> string, text: string, hash: string) {
    (exists c :: c in text && !IsSpace(c)) && Short(text) && hash == excerptHash(text)
  }

  ghost predicate SpecificationPlain(excerptHash: string -> string, s: Specification) {
    && NodeName(s.nodeId) && Required(s.sourceTitle, 1000) && Required(s.sourceLocation, 2000)
    && Required(s.sourceRevision, 1000) && Quoted(excerptHash, s.claimText, s.claimHash)
    && ((s.nodeKind == SourceClaim && s.derivationId == "")
        || (s.nodeKind == DerivedClaim && Required(s.derivationId, 512)))
  }

  ghost predicate ImplementationPlain(excerptHash: string -> string, i: Implementation) {
    && NodeName(i.nodeId) && i.nodeKind == SourceClaim && Required(i.repositoryId, 2000)
    && Required(i.sourceTitle, 1000) && Required(i.sourceLocation, 2000) && Required(i.revision, 1000)
    && Required(i.path, 2000) && Required(i.span, 500) && Required(i.symbolKind, 1000)
    && Required(i.qualifiedName, 1000) && Quoted(excerptHash, i.exactExcerpt, i.excerptHash)
    && (|i.revision| == 40 || |i.revision| == 64)
    && forall c :: c in i.revision ==> '0' <= c <= '9' || 'a' <= c <= 'f'
  }

  ghost predicate CutPlain(excerptHash: string -> string, cutId: AdmittedCut -> string, cut: AdmittedCut) {
    && Required(cut.id, 512) && "canonical-implements-cut:v1:sha256:" < cut.id
    && cut.id == cutId(AdmittedCut("", cut.specifications, cut.implementations))
    && 1 <= |cut.specifications| <= 256 && 1 <= |cut.implementations| <= 256
    && (forall s :: s in cut.specifications ==> SpecificationPlain(excerptHash, s))
    && (forall i :: i in cut.implementations ==> ImplementationPlain(excerptHash, i))
    && (forall s, i :: s in cut.specifications && i in cut.implementations ==> s.nodeId != i.nodeId)
    && (forall i, j :: 0 <= i < j < |cut.specifications| ==>
          Less(cut.specifications[i].nodeId, cut.specifications[j].nodeId))
    && (forall i, j :: 0 <= i < j < |cut.implementations| ==>
          Less(cut.implementations[i].nodeId, cut.implementations[j].nodeId))
  }

  lemma NamePlain(s: string)
    ensures TypedId(s, NODE_PREFIX, MAX_NODE_ID_BYTES) <==> NodeName(s)
  {
  }

  lemma QuotedPlain(excerptHash: string -> string, text: string, hash: string)
    ensures Content(excerptHash, text, hash) <==> Quoted(excerptHash, text, hash)
  {
  }

  lemma SpecificationByText(excerptHash: string -> string, s: Specification)
    ensures SpecificationValid(excerptHash, s) <==> SpecificationPlain(excerptHash, s)
  {
    NamePlain(s.nodeId);
    QuotedPlain(excerptHash, s.claimText, s.claimHash);
  }

  lemma CommitByChar(s: string)
    ensures GitCommit(s) <==>
            (|s| == 40 || |s| == 64) && forall c :: c in s ==> '0' <= c <= '9' || 'a' <= c <= 'f'
  {
    if GitCommit(s) {
      forall c | c in s
        ensures '0' <= c <= '9' || 'a' <= c <= 'f'
      {
        var i :| 0 <= i < |s| && s[i] == c;
      }
    }
    assert forall i :: 0 <= i < |s| ==> s[i] in s;
  }

  lemma ImplementationByText(excerptHash: string -> string, i: Implementation)
    ensures ImplementationValid(excerptHash, i) <==> ImplementationPlain(excerptHash, i)
  {
    NamePlain(i.nodeId);
    QuotedPlain(excerptHash, i.exactExcerpt, i.excerptHash);
    CommitByChar(i.revision);
  }

  lemma AddressPlain(s: string)
    ensures TypedId(s, CUT_PREFIX, MAX_CUT_ID_BYTES) <==>
            Required(s, 512) && "canonical-implements-cut:v1:sha256:" < s
  {
  }

  lemma SidesApart(cut: AdmittedCut)
    ensures (forall i :: i in cut.implementations ==> i.nodeId !in Refs(cut.specifications, SpecificationId)) <==>
            forall s, i :: s in cut.specifications && i in cut.implementations ==> s.nodeId != i.nodeId
  {
    RefsMembers(cut.specifications, SpecificationId);
    forall i | i in cut.implementations
      ensures i.nodeId in Refs(cut.specifications, SpecificationId) <==>
              exists s :: s in cut.specifications && s.nodeId == i.nodeId
    {
      assert forall s :: s in cut.specifications ==> SpecificationId(s) == s.nodeId;
    }
  }

  lemma SidesOrdered(cut: AdmittedCut)
    ensures DistinctKeys(cut.specifications, SpecificationId) && CanonicalCut(cut) <==>
            forall i, j :: 0 <= i < j < |cut.specifications| ==>
              Less(cut.specifications[i].nodeId, cut.specifications[j].nodeId)
    ensures DistinctKeys(cut.implementations, ImplementationId) && SortedBy(cut.implementations, ImplementationId) <==>
            forall i, j :: 0 <= i < j < |cut.implementations| ==>
              Less(cut.implementations[i].nodeId, cut.implementations[j].nodeId)
  {
    var impls := cut.implementations;
    assert forall i, j :: 0 <= i < j < |impls| ==>
             (Less(impls[i].nodeId, impls[j].nodeId) <==>
              Leq(ImplementationId(impls[i]), ImplementationId(impls[j]))
              && ImplementationId(impls[i]) != ImplementationId(impls[j]));
  }

  /** A valid cut, endpoint by endpoint and text by text. */
  lemma CutByText(excerptHash: string -> string, cutId: AdmittedCut -> string, cut: AdmittedCut)
    ensures ValidAdmittedCut(excerptHash, cutId, cut) <==> CutPlain(excerptHash, cutId, cut)
  {
    AddressPlain(cut.id);
    SidesApart(cut);
    SidesOrdered(cut);
    assert cut.(id := "") == AdmittedCut("", cut.specifications, cut.implementations);
    forall s | s in cut.specifications
      ensures SpecificationValid(excerptHash, s) <==> SpecificationPlain(excerptHash, s)
    {
      SpecificationByText(excerptHash, s);
    }
    forall i | i in cut.implementations
      ensures ImplementationValid(excerptHash, i) <==> ImplementationPlain(excerptHash, i)
    {
      ImplementationByText(excerptHash, i);
    }
  }

  // ----- the entry point -----

  ghost predicate RootPlain(cut: AdmittedCut, root: Id) {
    exists s :: s in cut.specifications && s.nodeId == root && s.nodeKind == DerivedClaim
  }

  ghost predicate ReviewPlain(env: Env, cut: AdmittedCut, b: RecursiveBasis) {
    && BoundsPlain(b) && CutPlain(env.excerptHash, env.cutId, cut) && b.admittedCutId == cut.id
    && RootPlain(cut, b.rootNodeId) && ClosurePlain(env, cut, b)
  }

  lemma RootListed(cut: AdmittedCut, root: Id)
    requires CanonicalCut(cut)
    ensures root in Specifications(cut) && Specifications(cut)[root].nodeKind == DerivedClaim <==> RootPlain(cut, root)
  {
    SpecificationListed(cut, root);
  }

  /**
   What the recursive entry point admits: a basis within bounds, for a valid cut of that id,
   rooted at an admitted derived claim, whose closure reads plainly.
   */
  lemma ReviewedPlainly(env: Env, cut: AdmittedCut, b: RecursiveBasis)
    ensures Reviewable(env, cut, b) <==> ReviewPlain(env, cut, b)
  {
    BoundsByText(b);
    CutByText(env.excerptHash, env.cutId, cut);
    if WithinBounds(b) && ValidCut(env, cut) {
      RootListed(cut, b.rootNodeId);
      NodeIdsShort(b);
      AcceptedPlainly(env, cut, b);
    }
  }

  lemma NodeIdsShort(b: RecursiveBasis)
    requires WithinBounds(b)
    ensures NulFreeNodes(b.ancestors)
  {
    forall n | n in b.ancestors.nodes
      ensures NulFree(n.id)
    {
      assert CleanNode(n);
    }
  }

  // ----- the depth-one entry point -----

  ghost predicate DepthOneCountsPlain(b: DerivedBasis) {
    var a := b.ancestors;
    && |a.derivations| == 1 && 1 <= |a.derivations[0].parents| <= 8 && 1 <= |b.sourceLeaves| <= 8
    && |a.nodes| <= 9 && |a.edges| <= 8 && |a.payloads| <= 9 && |a.provenance| <= 17 && |a.temporal| <= 9
    && |a.integrity| <= 9 && forall r :: r in a.provenance ==> |r.originRefs| <= 8
  }

  ghost predicate DepthOneText(b: DerivedBasis, s: string) {
    var a := b.ancestors;
    || s == b.contractVersion || s == b.id || s == b.admittedCutId || s == b.rootNodeId || s == b.ruleStatement
    || s == a.schemaVersion || s == a.snapshotId
    || NodeText(a, s) || EdgeText(a, s) || PayloadText(a, s) || ProvenanceText(a, s) || MarkText(a, s)
    || DerivationText(a, s)
  }

  ghost predicate DepthOnePlain(b: DerivedBasis) {
    && DepthOneCountsPlain(b) && (forall s :: DepthOneText(b, s) ==> Short(s))
    && b.ruleStatement != "" && !IsSpace(b.ruleStatement[0]) && !IsSpace(b.ruleStatement[|b.ruleStatement| - 1])
  }

  ghost predicate ArtifactTextsShort(a: Artifact) {
    && Short(a.schemaVersion) && Short(a.snapshotId)
    && (forall s :: NodeText(a, s) ==> Short(s)) && (forall s :: EdgeText(a, s) ==> Short(s))
    && (forall s :: PayloadText(a, s) ==> Short(s)) && (forall s :: ProvenanceText(a, s) ==> Short(s))
    && (forall s :: MarkText(a, s) ==> Short(s)) && (forall s :: DerivationText(a, s) ==> Short(s))
  }

  lemma CleanByText(a: Artifact)
    ensures CleanArtifact(a) <==>
            && ArtifactTextsShort(a) && (forall r :: r in a.provenance ==> |r.originRefs| <= 32)
            && (forall d :: d in a.derivations ==> 1 <= |d.parents| <= 32)
  {
    NodesShort(a);
    EdgesShort(a);
    PayloadsShort(a);
    ProvenanceShort(a);
    MarksShort(a);
    DerivationsShort(a);
  }

  lemma DepthOneTextsByKind(b: DerivedBasis)
    ensures (forall s :: DepthOneText(b, s) ==> Short(s)) <==>
            && Short(b.contractVersion) && Short(b.id) && Short(b.admittedCutId) && Short(b.rootNodeId)
            && Short(b.ruleStatement) && ArtifactTextsShort(b.ancestors)
  {
    if forall s :: DepthOneText(b, s) ==> Short(s) {
      assert DepthOneText(b, b.contractVersion) && DepthOneText(b, b.id) && DepthOneText(b, b.admittedCutId);
      assert DepthOneText(b, b.rootNodeId) && DepthOneText(b, b.ruleStatement);
      assert DepthOneText(b, b.ancestors.schemaVersion) && DepthOneText(b, b.ancestors.snapshotId);
      assert forall s :: NodeText(b.ancestors, s) ==> DepthOneText(b, s);
      assert forall s :: EdgeText(b.ancestors, s) ==> DepthOneText(b, s);
      assert forall s :: PayloadText(b.ancestors, s) ==> DepthOneText(b, s);
      assert forall s :: ProvenanceText(b.ancestors, s) ==> DepthOneText(b, s);
      assert forall s :: MarkText(b.ancestors, s) ==> DepthOneText(b, s);
      assert forall s :: DerivationText(b.ancestors, s) ==> DepthOneText(b, s);
    }
  }

  /** The smaller bounds of depth one look at every text and list as well. */
  lemma DepthOneBoundsByText(b: DerivedBasis)
    ensures DepthOneWithinBounds(b) <==> DepthOnePlain(b)
  {
    CleanByText(b.ancestors);
    DepthOneTextsByKind(b);
  }

  /** Depth one seals by setting version and id, and leaves every record where it is. */
  lemma SealedDerivedPlainly(b: DerivedBasis, digest: DerivedBasis -> string)
    ensures var s := SealedDerived(b, digest);
            && s.contractVersion == "lab-canonical-implements-derived-review-basis/v1" && s.id == digest(s.(id := ""))
            && s.admittedCutId == b.admittedCutId && s.rootNodeId == b.rootNodeId && s.ancestors == b.ancestors
            && s.sourceLeaves == b.sourceLeaves && s.ruleStatement == b.ruleStatement
  {
    var s := SealedDerived(b, digest);
    assert s.(id := "") == b.(contractVersion := DERIVED_BASIS_VERSION, id := "");
  }
}
