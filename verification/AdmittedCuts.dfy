/**
 The closed world of an implements review: the admitted specifications and implementations,
 each checked text by text, sorted and content-addressed.
 */
module AdmittedCuts {
  import opened Outcomes
  import opened Ordering
  import opened Evidence
  import opened Identity

  datatype Specification = Specification(
    nodeId: Id, nodeKind: NodeKind, derivationId: Id, sourceTitle: string, sourceLocation: string,
    sourceRevision: string, claimText: string, claimHash: string)

  datatype Implementation = Implementation(
    nodeId: Id, nodeKind: NodeKind, repositoryId: string, sourceTitle: string, sourceLocation: string,
    revision: string, path: string, span: string, symbolKind: string, qualifiedName: string,
    exactExcerpt: string, excerptHash: string)

  datatype AdmittedCut = AdmittedCut(
    id: string, specifications: seq<Specification>, implementations: seq<Implementation>)

  function SpecificationId(s: Specification): string { s.nodeId }
  function ImplementationId(i: Implementation): string { i.nodeId }

  const MAX_CUT_NODES := 256
  const MAX_NODE_ID_BYTES := 512
  const MAX_CUT_ID_BYTES := 512
  const MAX_TITLE_BYTES := 1000
  const MAX_LOCATION_BYTES := 2000
  const MAX_REVISION_BYTES := 1000
  const MAX_EXCERPT_BYTES := 16384
  const MAX_PATH_BYTES := 2000
  const MAX_SPAN_BYTES := 500
  const MAX_SYMBOL_BYTES := 1000
  const CUT_PREFIX := "canonical-implements-cut:v1:sha256:"

  // ----- texts -----

  /** Bytes of one code point in UTF-8 (section 3 of RFC 3629). */
  function CharSize(c: char): (n: nat)
    ensures 1 <= n <= 4
  {
    if c < '\U{0080}' then 1 else if c < '\U{0800}' then 2 else if c < '\U{10000}' then 3 else 4
  }

  function Utf8Size(s: string): nat {
    if s == "" then 0 else CharSize(s[0]) + Utf8Size(s[1..])
  }

  lemma {:induction false} Utf8SizeBound(s: string)
    ensures |s| <= Utf8Size(s) <= 4 * |s|
  {
    if s != "" {
      Utf8SizeBound(s[1..]);
    }
  }

  predicate RequiredText(s: string, maxBytes: nat) {
    NulFree(s) && s != "" && Tight(s) && Utf8Size(s) <= maxBytes
  }

  predicate TypedId(s: string, prefix: string, maxBytes: nat) {
    prefix <= s && |s| > |prefix| && Utf8Size(s) <= maxBytes && NulFree(s) && Tight(s)
  }

  predicate Content(excerptHash: string -> string, text: string, hash: string) {
    !Blank(text) && NulFree(text) && Utf8Size(text) <= MAX_EXCERPT_BYTES && hash == excerptHash(text)
  }

  predicate GitCommit(s: string) {
    (|s| == 40 || |s| == 64) && forall i :: 0 <= i < |s| ==> HexDigit(s[i])
  }

  // ----- endpoints -----

  predicate SpecificationValid(excerptHash: string -> string, s: Specification) {
    && TypedId(s.nodeId, NODE_PREFIX, MAX_NODE_ID_BYTES)
    && (match s.nodeKind
        case SourceClaim => s.derivationId == ""
        case DerivedClaim => RequiredText(s.derivationId, MAX_NODE_ID_BYTES)
        case _ => false)
    && RequiredText(s.sourceTitle, MAX_TITLE_BYTES) && RequiredText(s.sourceLocation, MAX_LOCATION_BYTES)
    && RequiredText(s.sourceRevision, MAX_REVISION_BYTES)
    && Content(excerptHash, s.claimText, s.claimHash)
  }

  predicate ImplementationValid(excerptHash: string -> string, i: Implementation) {
    && TypedId(i.nodeId, NODE_PREFIX, MAX_NODE_ID_BYTES) && i.nodeKind == SourceClaim
    && RequiredText(i.repositoryId, MAX_LOCATION_BYTES) && RequiredText(i.sourceTitle, MAX_TITLE_BYTES)
    && RequiredText(i.sourceLocation, MAX_LOCATION_BYTES) && RequiredText(i.revision, MAX_REVISION_BYTES)
    && RequiredText(i.path, MAX_PATH_BYTES) && RequiredText(i.span, MAX_SPAN_BYTES)
    && RequiredText(i.symbolKind, MAX_SYMBOL_BYTES) && RequiredText(i.qualifiedName, MAX_SYMBOL_BYTES)
    && GitCommit(i.revision) && Content(excerptHash, i.exactExcerpt, i.excerptHash)
  }

  /** Both partitions, with every endpoint valid and no id used twice in either or both. */
  ghost predicate EndpointsValid(
    excerptHash: string -> string, specs: seq<Specification>, impls: seq<Implementation>)
  {
    && 1 <= |specs| <= MAX_CUT_NODES && 1 <= |impls| <= MAX_CUT_NODES
    && DistinctKeys(specs, SpecificationId) && (forall s :: s in specs ==> SpecificationValid(excerptHash, s))
    && DistinctKeys(impls, ImplementationId) && (forall i :: i in impls ==> ImplementationValid(excerptHash, i))
    && (forall i :: i in impls ==> i.nodeId !in Refs(specs, SpecificationId))
  }

  // ----- the cut -----

  predicate CanonicalCut(cut: AdmittedCut) {
    forall i, j :: 0 <= i < j < |cut.specifications| ==>
      Less(cut.specifications[i].nodeId, cut.specifications[j].nodeId)
  }

  function Specifications(cut: AdmittedCut): map<Id, Specification> {
    Index(cut.specifications, SpecificationId)
  }

  lemma CutKeysDistinct(cut: AdmittedCut)
    requires CanonicalCut(cut)
    ensures DistinctKeys(cut.specifications, SpecificationId)
  {
  }

  /** Binary search: on a canonical cut it finds exactly the specification with this node id. */
  method FindSpecification(cut: AdmittedCut, nodeId: Id) returns (r: Option<Specification>)
    requires CanonicalCut(cut)
    ensures r.Some? <==> nodeId in Specifications(cut)
    ensures r.Some? ==> r.value == Specifications(cut)[nodeId]
  {
    var specs := cut.specifications;
    CutKeysDistinct(cut);
    IndexKeys(specs, SpecificationId);
    var lo, hi := 0, |specs|;
    while lo < hi
      invariant 0 <= lo <= hi <= |specs|
      invariant forall i :: 0 <= i < lo ==> Less(specs[i].nodeId, nodeId)
      invariant forall i :: hi <= i < |specs| ==> Leq(nodeId, specs[i].nodeId)
    {
      var mid := (lo + hi) / 2;
      if Less(specs[mid].nodeId, nodeId) {
        AllBefore(cut, mid, nodeId);
        lo := mid + 1;
      } else {
        AllAfter(cut, mid, nodeId);
        hi := mid;
      }
    }
    if lo < |specs| && specs[lo].nodeId == nodeId {
      assert specs[lo] in specs;
      return Some(specs[lo]);
    }
    AbsentFrom(cut, lo, nodeId);
    return None;
  }

  lemma AllBefore(cut: AdmittedCut, mid: nat, nodeId: Id)
    requires CanonicalCut(cut) && mid < |cut.specifications| && Less(cut.specifications[mid].nodeId, nodeId)
    ensures forall i :: 0 <= i <= mid ==> Less(cut.specifications[i].nodeId, nodeId)
  {
    forall i | 0 <= i < mid
      ensures Less(cut.specifications[i].nodeId, nodeId)
    {
      LessLeq(cut.specifications[i].nodeId, cut.specifications[mid].nodeId, nodeId);
    }
  }

  lemma AllAfter(cut: AdmittedCut, mid: nat, nodeId: Id)
    requires CanonicalCut(cut) && mid < |cut.specifications| && !Less(cut.specifications[mid].nodeId, nodeId)
    ensures forall i :: mid <= i < |cut.specifications| ==> Leq(nodeId, cut.specifications[i].nodeId)
  {
    LeqTotal(cut.specifications[mid].nodeId, nodeId);
    forall i | mid < i < |cut.specifications|
      ensures Leq(nodeId, cut.specifications[i].nodeId)
    {
      LeqTransitive(nodeId, cut.specifications[mid].nodeId, cut.specifications[i].nodeId);
    }
  }

  lemma AbsentFrom(cut: AdmittedCut, lo: nat, nodeId: Id)
    requires CanonicalCut(cut) && lo <= |cut.specifications|
    requires forall i :: 0 <= i < lo ==> Less(cut.specifications[i].nodeId, nodeId)
    requires forall i :: lo <= i < |cut.specifications| ==> Leq(nodeId, cut.specifications[i].nodeId)
    requires lo < |cut.specifications| ==> cut.specifications[lo].nodeId != nodeId
    ensures nodeId !in Specifications(cut)
  {
    var specs := cut.specifications;
    IndexKeys(specs, SpecificationId);
    forall s | s in specs
      ensures SpecificationId(s) != nodeId
    {
      var i :| 0 <= i < |specs| && specs[i] == s;
      if i > lo && s.nodeId == nodeId {
        LeqAntisymmetric(specs[lo].nodeId, nodeId);
      }
    }
  }

  lemma LessLeq(a: string, b: string, c: string)
    requires Less(a, b) && Leq(b, c)
    ensures Less(a, c)
  {
    LeqTransitive(a, b, c);
    if a == c {
      LeqAntisymmetric(a, b);
    }
  }

  // ----- building and validating a cut -----

  function SealedCut(
    cutId: AdmittedCut -> string, specs: seq<Specification>, impls: seq<Implementation>): AdmittedCut
  {
    var cut := AdmittedCut("", SortBy(specs, SpecificationId), SortBy(impls, ImplementationId));
    cut.(id := cutId(cut))
  }

  method NewAdmittedCut(
    excerptHash: string -> string, cutId: AdmittedCut -> string, specs: seq<Specification>, impls: seq<Implementation>)
    returns (r: Option<AdmittedCut>)
    ensures r.Some? <==> EndpointsValid(excerptHash, specs, impls)
    ensures r.Some? ==> r.value == SealedCut(cutId, specs, impls)
  {
    if |specs| == 0 || |impls| == 0 || |specs| > MAX_CUT_NODES || |impls| > MAX_CUT_NODES {
      return None;
    }
    var seen := CollectDistinct(specs, SpecificationId, (s: Specification) => SpecificationValid(excerptHash, s));
    if seen.None? {
      return None;
    }
    var ids := seen.value;
    var both := CollectDistinct(
      impls, ImplementationId, (i: Implementation) => ImplementationValid(excerptHash, i) && i.nodeId !in ids);
    if both.None? {
      return None;
    }
    var cut := AdmittedCut("", SortBy(specs, SpecificationId), SortBy(impls, ImplementationId));
    return Some(cut.(id := cutId(cut)));
  }

  /** A cut as it is sealed: typed id, valid endpoints, both partitions in order, and its own content address. */
  ghost predicate ValidAdmittedCut(excerptHash: string -> string, cutId: AdmittedCut -> string, cut: AdmittedCut) {
    && TypedId(cut.id, CUT_PREFIX, MAX_CUT_ID_BYTES)
    && EndpointsValid(excerptHash, cut.specifications, cut.implementations)
    && CanonicalCut(cut) && SortedBy(cut.implementations, ImplementationId)
    && cut.id == cutId(cut.(id := ""))
  }

  lemma AddressedCutValid(excerptHash: string -> string, cutId: AdmittedCut -> string, cut: AdmittedCut)
    requires TypedId(cut.id, CUT_PREFIX, MAX_CUT_ID_BYTES) && cut.id == cutId(cut.(id := ""))
    requires EndpointsValid(excerptHash, cut.specifications, cut.implementations)
    requires CanonicalCut(cut) && |cut.implementations| == 1
    ensures ValidAdmittedCut(excerptHash, cutId, cut)
  {
  }

  lemma OneImplementation(
    excerptHash: string -> string, specs: seq<Specification>, impls: seq<Implementation>)
    requires 1 <= |specs| <= MAX_CUT_NODES && DistinctKeys(specs, SpecificationId)
    requires forall s :: s in specs ==> SpecificationValid(excerptHash, s)
    requires |impls| == 1 && ImplementationValid(excerptHash, impls[0])
    requires impls[0].nodeId !in Refs(specs, SpecificationId)
    ensures EndpointsValid(excerptHash, specs, impls)
  {
    forall i | i in impls
      ensures i == impls[0]
    {
    }
  }

  lemma SortedIsCanonical(cut: AdmittedCut)
    requires DistinctKeys(cut.specifications, SpecificationId)
    ensures CanonicalCut(cut) <==> SortedBy(cut.specifications, SpecificationId)
  {
    var specs := cut.specifications;
    forall i, j | 0 <= i < j < |specs|
      ensures Less(specs[i].nodeId, specs[j].nodeId) <==> Leq(SpecificationId(specs[i]), SpecificationId(specs[j]))
    {
      assert SpecificationId(specs[i]) != SpecificationId(specs[j]);
    }
  }

  lemma SortFixes<T>(s: seq<T>, key: T -> string)
    ensures SortBy(s, key) == s <==> SortedBy(s, key)
  {
    SortFacts(s, key);
    if SortedBy(s, key) {
      SortOfSorted(s, key);
    }
  }

  /** Rebuilding a cut from its endpoints gives it back exactly when it was sealed. */
  method ValidateAdmittedCut(excerptHash: string -> string, cutId: AdmittedCut -> string, cut: AdmittedCut)
    returns (ok: bool)
    ensures ok <==> ValidAdmittedCut(excerptHash, cutId, cut)
  {
    if !TypedId(cut.id, CUT_PREFIX, MAX_CUT_ID_BYTES) {
      return false;
    }
    var want := NewAdmittedCut(excerptHash, cutId, cut.specifications, cut.implementations);
    if want.None? {
      return false;
    }
    SortFixes(cut.specifications, SpecificationId);
    SortFixes(cut.implementations, ImplementationId);
    SortedIsCanonical(cut);
    RebuiltIsSame(cutId, cut);
    return want.value == cut;
  }

  lemma RebuiltIsSame(cutId: AdmittedCut -> string, cut: AdmittedCut)
    ensures SealedCut(cutId, cut.specifications, cut.implementations) == cut <==>
            && SortBy(cut.specifications, SpecificationId) == cut.specifications
            && SortBy(cut.implementations, ImplementationId) == cut.implementations
            && cut.id == cutId(cut.(id := ""))
  {
    assert cut.(id := "") == AdmittedCut("", cut.specifications, cut.implementations);
  }

  /** A sealed cut of valid endpoints is valid, when its content address has the shape of one. */
  lemma SealedCutValid(
    excerptHash: string -> string, cutId: AdmittedCut -> string, specs: seq<Specification>, impls: seq<Implementation>)
    requires EndpointsValid(excerptHash, specs, impls)
    requires TypedId(SealedCut(cutId, specs, impls).id, CUT_PREFIX, MAX_CUT_ID_BYTES)
    ensures ValidAdmittedCut(excerptHash, cutId, SealedCut(cutId, specs, impls))
  {
    var cut := SealedCut(cutId, specs, impls);
    SortFacts(specs, SpecificationId);
    SortFacts(impls, ImplementationId);
    DistinctKeysPermuted(specs, cut.specifications, SpecificationId);
    DistinctKeysPermuted(impls, cut.implementations, ImplementationId);
    RefsMembers(specs, SpecificationId);
    RefsMembers(cut.specifications, SpecificationId);
    SortedIsCanonical(cut);
    assert cut.(id := "") == AdmittedCut("", cut.specifications, cut.implementations);
  }
}
