/**
 An accepted basis that sealing breaks: root r derives from s and d, d derives from s,
 and the provenance of r's derivation, listing s then d, also serves the edge s to d.
 Sorting that record for r turns the edge's endpoints round.
 */
module SealCounterexample {
  import opened Ordering
  import opened Evidence
  import opened Identity
  import opened AdmittedCuts
  import opened ClosureHeight
  import opened RecursiveClosure
  import opened Sealing
  import opened SealedAcceptance
  import opened ReviewBasis

  /** Three claims, named as the program admits them with the source claim last, and one implementation. */
  datatype Ids = Ids(derived: Id, root: Id, source: Id, impl: Id, commit: string) {
    predicate Valid() {
      && TypedId(derived, NODE_PREFIX, MAX_NODE_ID_BYTES) && TypedId(root, NODE_PREFIX, MAX_NODE_ID_BYTES)
      && TypedId(source, NODE_PREFIX, MAX_NODE_ID_BYTES) && TypedId(impl, NODE_PREFIX, MAX_NODE_ID_BYTES)
      && Less(derived, root) && Less(root, source) && impl != derived && impl != root && impl != source
      && GitCommit(commit)
    }
  }

  function Prov(id: Id, origins: seq<string>): Provenance {
    Provenance(id, origins, "g", "u", "m", "v", "w", "")
  }

  function Node(id: Id, kind: NodeKind, provenance: Id): CanonicalNode {
    CanonicalNode(id, kind, "p", provenance, "t", "i")
  }

  function Spec(id: Id, kind: NodeKind, derivation: Id, claimHash: string): Specification {
    Specification(id, kind, derivation, "k", "l", "v", "c", claimHash)
  }

  const PAYLOAD := Payload("p", "y", "k", "l", "", "", "c", "")

  function Example(env: Env, x: Ids): Artifact {
    Artifact(
      CANONICAL_SCHEMA, "n",
      [Node(x.source, SourceClaim, "3"), Node(x.derived, DerivedClaim, "2"), Node(x.root, DerivedClaim, "1")],
      [CanonicalEdge("x", x.source, x.derived, DerivedFrom, "1"),
       CanonicalEdge("y", x.source, x.root, DerivedFrom, "4"),
       CanonicalEdge("z", x.derived, x.root, DerivedFrom, "5")],
      [PAYLOAD],
      [Prov("1", [x.source, x.derived]), Prov("2", [x.source]), Prov("3", ["o"]), Prov("4", [x.source, x.root]),
       Prov("5", [x.derived, x.root])],
      [Temporal("t", "")], [Integrity("i", env.digest(PAYLOAD))],
      [Derivation("", "D", x.derived, [x.source], "m", "u", "w", "2"),
       Derivation("", "R", x.root, [x.source, x.derived], "m", "u", "w", "1")])
  }

  function ExampleBasis(env: Env, x: Ids, body: string): RecursiveBasis {
    RecursiveBasis("", "", ExampleCut(env, x).id, x.root, Example(env, x), [SourceLeaf(x.source, body)],
                   [DerivationRule(x.derived, "D", "a"), DerivationRule(x.root, "R", "a")])
  }

  function ExampleCut(env: Env, x: Ids): AdmittedCut {
    var h := env.excerptHash(PAYLOAD.claim);
    var cut := AdmittedCut(
      "", [Spec(x.derived, DerivedClaim, "D", h), Spec(x.root, DerivedClaim, "R", h),
           Spec(x.source, SourceClaim, "", h)],
      [Implementation(x.impl, SourceClaim, "k", "k", "l", x.commit, "p", "x", "y", "q", "c", h)]);
    cut.(id := env.cutId(cut))
  }

  // ----- names and texts -----

  /** Most of the proofs only need the names to differ and not to be blank. */
  predicate Named(x: Ids) {
    && x.derived != x.root && x.derived != x.source && x.root != x.source
    && Starts(x.derived) && Starts(x.root) && Starts(x.source)
  }

  predicate Starts(id: Id) {
    id != "" && id[0] == 'c'
  }

  predicate NamesBounded(x: Ids) {
    BoundedText(x.derived) && BoundedText(x.root) && BoundedText(x.source)
  }

  lemma ValidNames(x: Ids)
    requires x.Valid()
    ensures Named(x) && NamesBounded(x) && !Leq(x.source, x.derived)
  {
    LeqTransitive(x.derived, x.root, x.source);
    if Leq(x.source, x.derived) {
      LeqTransitive(x.source, x.derived, x.root);
      LeqAntisymmetric(x.source, x.root);
    }
    TypedName(x.derived);
    TypedName(x.root);
    TypedName(x.source);
  }

  lemma TypedName(id: Id)
    requires TypedId(id, NODE_PREFIX, MAX_NODE_ID_BYTES)
    ensures Starts(id) && BoundedText(id)
  {
    assert id[0] == NODE_PREFIX[0];
  }

  lemma LetterFacts(s: string)
    requires |s| == 1 && '!' <= s[0] <= 'z'
    ensures !Blank(s) && NulFree(s) && BoundedText(s) && TrimSpace(s) == s && Utf8Size(s) <= 4
  {
    assert s[0] in s && !IsSpace(s[0]);
    TrimFacts(s);
    ShortText(s);
    Utf8SizeBound(s);
  }

  lemma LetterRequired(s: string, maxBytes: nat)
    requires |s| == 1 && '!' <= s[0] <= 'z' && maxBytes >= 4
    ensures RequiredText(s, maxBytes)
  {
    LetterFacts(s);
  }

  // ----- the cut is one the program admits -----

  lemma ExampleSpecValid(excerptHash: string -> string, id: Id, kind: NodeKind, derivation: Id)
    requires TypedId(id, NODE_PREFIX, MAX_NODE_ID_BYTES)
    requires (kind == SourceClaim && derivation == "")
             || (kind == DerivedClaim && RequiredText(derivation, MAX_NODE_ID_BYTES))
    ensures SpecificationValid(excerptHash, Spec(id, kind, derivation, excerptHash("c")))
  {
    LetterRequired("k", MAX_TITLE_BYTES);
    LetterRequired("l", MAX_LOCATION_BYTES);
    LetterRequired("v", MAX_REVISION_BYTES);
    LetterFacts("c");
  }

  lemma CommitText(commit: string)
    requires GitCommit(commit)
    ensures RequiredText(commit, MAX_REVISION_BYTES)
  {
    assert HexDigit(commit[0]) && HexDigit(commit[|commit| - 1]);
    assert NulFree(commit);
    Utf8SizeBound(commit);
  }

  lemma ExampleImplementationValid(env: Env, x: Ids)
    requires TypedId(x.impl, NODE_PREFIX, MAX_NODE_ID_BYTES) && GitCommit(x.commit)
    ensures ImplementationValid(env.excerptHash, ExampleCut(env, x).implementations[0])
  {
    CommitText(x.commit);
    LetterRequired("k", MAX_TITLE_BYTES);
    LetterRequired("l", MAX_LOCATION_BYTES);
    LetterRequired("p", MAX_PATH_BYTES);
    LetterRequired("x", MAX_SPAN_BYTES);
    LetterRequired("y", MAX_SYMBOL_BYTES);
    LetterRequired("q", MAX_SYMBOL_BYTES);
    LetterFacts("c");
  }

  lemma ExampleSpecsValid(env: Env, x: Ids)
    requires x.Valid()
    ensures forall s :: s in ExampleCut(env, x).specifications ==> SpecificationValid(env.excerptHash, s)
  {
    var specs := ExampleCut(env, x).specifications;
    LetterRequired("D", MAX_NODE_ID_BYTES);
    LetterRequired("R", MAX_NODE_ID_BYTES);
    ExampleSpecValid(env.excerptHash, x.derived, DerivedClaim, "D");
    ExampleSpecValid(env.excerptHash, x.root, DerivedClaim, "R");
    ExampleSpecValid(env.excerptHash, x.source, SourceClaim, "");
    forall s | s in specs
      ensures SpecificationValid(env.excerptHash, s)
    {
      assert s == specs[0] || s == specs[1] || s == specs[2];
    }
  }

  lemma ExampleOrder(env: Env, x: Ids)
    requires x.Valid()
    ensures CanonicalCut(ExampleCut(env, x)) && DistinctKeys(ExampleCut(env, x).specifications, SpecificationId)
    ensures x.impl !in Refs(ExampleCut(env, x).specifications, SpecificationId)
  {
    var specs := ExampleCut(env, x).specifications;
    LeqTransitive(x.derived, x.root, x.source);
    ValidNames(x);
    assert Mapped(specs, SpecificationId) == [x.derived, x.root, x.source];
  }

  lemma ExampleCutValid(env: Env, x: Ids)
    requires x.Valid() && TypedId(ExampleCut(env, x).id, CUT_PREFIX, MAX_CUT_ID_BYTES)
    ensures ValidCut(env, ExampleCut(env, x))
  {
    var cut := ExampleCut(env, x);
    ExampleSpecsValid(env, x);
    ExampleImplementationValid(env, x);
    ExampleOrder(env, x);
    OneImplementation(env.excerptHash, cut.specifications, cut.implementations);
    AddressedCutValid(env.excerptHash, env.cutId, cut);
    assert cut.(id := "") == AdmittedCut("", cut.specifications, cut.implementations);
  }

  // ----- indexes of short record lists -----

  lemma IndexOne<T>(x: T, key: T -> Id)
    ensures Index([x], key) == map[key(x) := x]
  {
    assert [x][..0] == [];
  }

  lemma IndexMore<T>(s: seq<T>, x: T, key: T -> Id)
    ensures Index(s + [x], key) == Index(s, key)[key(x) := x]
  {
    assert (s + [x])[..|s|] == s;
  }

  lemma ExampleNodes(env: Env, x: Ids)
    requires Named(x)
    ensures var a := Example(env, x);
            && DistinctKeys(a.nodes, NodeId)
            && NodeIndex(a) == map[x.source := a.nodes[0], x.derived := a.nodes[1], x.root := a.nodes[2]]
  {
    var n := Example(env, x).nodes;
    IndexOne(n[0], NodeId);
    IndexMore([n[0]], n[1], NodeId);
    IndexMore([n[0], n[1]], n[2], NodeId);
    assert n == [n[0], n[1]] + [n[2]] && [n[0], n[1]] == [n[0]] + [n[1]];
  }

  lemma ExampleProvenance(env: Env, x: Ids)
    requires Named(x)
    ensures var a := Example(env, x);
            && DistinctKeys(a.provenance, ProvenanceId)
            && ProvenanceIndex(a) == map["1" := a.provenance[0], "2" := a.provenance[1], "3" := a.provenance[2],
                                         "4" := a.provenance[3], "5" := a.provenance[4]]
  {
    var p := Example(env, x).provenance;
    IndexOne(p[0], ProvenanceId);
    IndexMore([p[0]], p[1], ProvenanceId);
    IndexMore([p[0], p[1]], p[2], ProvenanceId);
    IndexMore([p[0], p[1], p[2]], p[3], ProvenanceId);
    IndexMore([p[0], p[1], p[2], p[3]], p[4], ProvenanceId);
    assert [p[0], p[1]] == [p[0]] + [p[1]] && [p[0], p[1], p[2]] == [p[0], p[1]] + [p[2]];
    assert p == [p[0], p[1], p[2], p[3]] + [p[4]] && [p[0], p[1], p[2], p[3]] == [p[0], p[1], p[2]] + [p[3]];
  }

  lemma ExampleDerivations(env: Env, x: Ids)
    requires Named(x)
    ensures var a := Example(env, x);
            && DistinctKeys(a.derivations, DerivationId) && DistinctKeys(a.derivations, DerivationNode)
            && DerivationIndex(a) == map[x.derived := a.derivations[0], x.root := a.derivations[1]]
            && SortedRefs(a) == {"2", "1"}
  {
    var d := Example(env, x).derivations;
    IndexOne(d[0], DerivationNode);
    IndexMore([d[0]], d[1], DerivationNode);
    assert d == [d[0]] + [d[1]];
    assert Mapped(d, DerivationProvenanceRef) == ["2", "1"];
  }

  lemma ExampleSidecars(env: Env, x: Ids)
    requires Named(x)
    ensures var a := Example(env, x);
            && PayloadIndex(a) == map["p" := a.payloads[0]] && TemporalIndex(a) == map["t" := a.temporal[0]]
            && IntegrityIndex(a) == map["i" := a.integrity[0]]
  {
    IndexOne(Example(env, x).payloads[0], PayloadId);
    IndexOne(Example(env, x).temporal[0], TemporalId);
    IndexOne(Example(env, x).integrity[0], IntegrityId);
  }

  lemma NotBlank(s: string)
    requires s != "" && '!' <= s[0] <= 'z'
    ensures !Blank(s)
  {
    assert s[0] in s && !IsSpace(s[0]);
  }

  lemma ProvComplete(id: Id, origins: seq<string>)
    requires id != "" && '!' <= id[0] <= 'z'
    requires 1 <= |origins| <= 2
    requires forall i :: 0 <= i < |origins| ==> origins[i] != "" && '!' <= origins[i][0] <= 'z'
    ensures Prov(id, origins).Complete()
  {
    NotBlank(id);
    NotBlank("g");
    NotBlank("u");
    NotBlank("m");
    NotBlank("v");
    NotBlank("w");
    forall o | o in origins
      ensures !Blank(o)
    {
      NotBlank(o);
    }
  }

  lemma ExampleProvenanceComplete(env: Env, x: Ids)
    requires Named(x)
    ensures forall p :: p in Example(env, x).provenance ==> p.Complete()
  {
    var p := Example(env, x).provenance;
    ProvComplete("1", [x.source, x.derived]);
    ProvComplete("2", [x.source]);
    ProvComplete("3", ["o"]);
    ProvComplete("4", [x.source, x.root]);
    ProvComplete("5", [x.derived, x.root]);
    assert forall i :: 0 <= i < |p| ==> p[i].Complete();
  }

  lemma ExampleRecordsValid(env: Env, x: Ids)
    requires Named(x)
    ensures RecordsValid(Example(env, x))
  {
    ExampleProvenanceComplete(env, x);
    ExampleProvenance(env, x);
    NotBlank("n");
    NotBlank("p");
    NotBlank("y");
    NotBlank("k");
    NotBlank("l");
    NotBlank("t");
    NotBlank("i");
  }

  lemma ExampleNodeValid(env: Env, x: Ids, id: Id, kind: NodeKind, provenance: Id)
    requires Named(x)
    requires id != "" && '!' <= id[0] <= 'z' && provenance in ProvenanceIndex(Example(env, x))
    ensures var a := Example(env, x);
            NodeValid(Node(id, kind, provenance), PayloadIndex(a), ProvenanceIndex(a), TemporalIndex(a),
                      IntegrityIndex(a), env.digest)
  {
    NotBlank(id);
    ExampleSidecars(env, x);
  }

  lemma ExampleNodesValid(env: Env, x: Ids)
    requires Named(x)
    ensures NodesValid(Example(env, x), env.digest)
  {
    ExampleNodes(env, x);
    ExampleProvenance(env, x);
    ExampleNodeValid(env, x, x.source, SourceClaim, "3");
    ExampleNodeValid(env, x, x.derived, DerivedClaim, "2");
    ExampleNodeValid(env, x, x.root, DerivedClaim, "1");
  }

  lemma ExampleEdgesValid(env: Env, x: Ids)
    requires Named(x)
    ensures EdgesValid(Example(env, x))
  {
    NotBlank("x");
    NotBlank("y");
    NotBlank("z");
    ExampleNodes(env, x);
    ExampleProvenance(env, x);
    var e := Example(env, x).edges;
    assert forall i :: 0 <= i < |e| ==> EdgeValid(e[i], NodeIndex(Example(env, x)), ProvenanceIndex(Example(env, x)));
  }

  lemma ExamplePairs(env: Env, x: Ids)
    requires Named(x)
    ensures PairKey(x.source, x.derived) in DerivedPairs(Example(env, x).edges)
    ensures PairKey(x.source, x.root) in DerivedPairs(Example(env, x).edges)
    ensures PairKey(x.derived, x.root) in DerivedPairs(Example(env, x).edges)
  {
    var e := Example(env, x).edges;
    assert e[0] in e && e[1] in e && e[2] in e;
  }

  lemma ExampleDerivedValid(env: Env, x: Ids)
    requires Named(x)
    ensures var a := Example(env, x);
            DerivationValid(a.derivations[0], NodeIndex(a), ProvenanceIndex(a), DerivedPairs(a.edges))
  {
    NotBlank("D");
    NotBlank(x.derived);
    NotBlank("m");
    NotBlank("u");
    NotBlank("w");
    ExampleNodes(env, x);
    ExampleProvenance(env, x);
    ExamplePairs(env, x);
  }

  lemma ExampleRootValid(env: Env, x: Ids)
    requires Named(x)
    ensures var a := Example(env, x);
            DerivationValid(a.derivations[1], NodeIndex(a), ProvenanceIndex(a), DerivedPairs(a.edges))
  {
    NotBlank("R");
    NotBlank(x.root);
    NotBlank("m");
    NotBlank("u");
    NotBlank("w");
    ExampleNodes(env, x);
    ExampleProvenance(env, x);
    ExamplePairs(env, x);
  }

  lemma ExampleDerivationsValid(env: Env, x: Ids)
    requires Named(x)
    ensures DerivationsValid(Example(env, x))
  {
    ExampleDerivations(env, x);
    ExampleDerivedValid(env, x);
    ExampleRootValid(env, x);
    var a := Example(env, x);
    forall d | d in a.derivations
      ensures d == a.derivations[0] || d == a.derivations[1]
    {
    }
  }

  lemma ExampleCovered(env: Env, x: Ids)
    requires Named(x)
    ensures DerivationsCover(Example(env, x))
  {
    ExampleDerivations(env, x);
  }

  lemma ExampleShape(env: Env, x: Ids)
    requires Named(x)
    ensures var g := ClosureGraph(Example(env, x));
            && g.nodes == map[x.source := SourceClaim, x.derived := DerivedClaim, x.root := DerivedClaim]
            && g.Parents(x.derived) == [x.source] && g.Parents(x.root) == [x.source, x.derived]
            && g.Parents(x.source) == []
  {
    ExampleNodes(env, x);
    ExampleDerivations(env, x);
  }

  /** A graph of that shape has the heights 0, 1 and 2. */
  lemma ShapeRanked(g: Graph, x: Ids, heights: map<Id, nat>)
    requires Named(x)
    requires g.nodes == map[x.source := SourceClaim, x.derived := DerivedClaim, x.root := DerivedClaim]
    requires g.Parents(x.derived) == [x.source] && g.Parents(x.root) == [x.source, x.derived]
             && g.Parents(x.source) == []
    requires heights == map[x.source := 0, x.derived := 1, x.root := 2]
    ensures g.Ranked(heights)
  {
    assert g.RankedAt(heights, x.source) && g.RankedAt(heights, x.derived);
    assert x.derived in g.Parents(x.root);
    assert g.RankedAt(heights, x.root);
  }

  lemma ExampleGraph(env: Env, x: Ids)
    requires Named(x)
    ensures ClosureGraph(Example(env, x)).Acceptable(x.root)
  {
    var g := ClosureGraph(Example(env, x));
    var heights: map<Id, nat> := map[x.source := 0, x.derived := 1, x.root := 2];
    ExampleShape(env, x);
    ShapeRanked(g, x, heights);
    RankedCertifies(g, heights, x.root);
    ExampleReached(g, x);
  }

  lemma ExampleReached(g: Graph, x: Ids)
    requires g.Step(x.root, x.derived) && g.Step(x.root, x.source)
    ensures g.Reached(x.root, x.root) && g.Reached(x.root, x.derived) && g.Reached(x.root, x.source)
  {
    assert g.ChainTo(x.root, [x.root], x.root);
    assert [x.root, x.derived][1..] == [x.derived] && [x.root, x.source][1..] == [x.source];
    assert g.ChainTo(x.root, [x.root, x.derived], x.derived);
    assert g.ChainTo(x.root, [x.root, x.source], x.source);
  }

  lemma ExampleNodesMatch(env: Env, x: Ids)
    requires Named(x)
    ensures NodesMatch(env, ExampleCut(env, x), Example(env, x))
  {
    var a := Example(env, x);
    ExampleNodes(env, x);
    ExampleProvenance(env, x);
    ExampleSidecars(env, x);
    ExampleDerivations(env, x);
    ExampleCutIndex(env, x);
    assert NodeMatches(env, ExampleCut(env, x), a, a.nodes[0]);
    assert NodeMatches(env, ExampleCut(env, x), a, a.nodes[1]);
    assert NodeMatches(env, ExampleCut(env, x), a, a.nodes[2]);
  }

  lemma ExampleEdgesMatch(env: Env, x: Ids)
    requires Named(x)
    ensures EdgesMatch(Example(env, x))
  {
    var a := Example(env, x);
    ExampleProvenance(env, x);
    ExampleDerivations(env, x);
    assert EdgeMatches(a, a.edges[0]) && EdgeMatches(a, a.edges[1]) && EdgeMatches(a, a.edges[2]);
    assert EdgePair(a.edges[0]) == (x.source, x.derived) && EdgePair(a.edges[1]) == (x.source, x.root)
           && EdgePair(a.edges[2]) == (x.derived, x.root);
  }

  lemma NodeUses(env: Env, x: Ids, n: CanonicalNode)
    requires Named(x)
    requires n in Example(env, x).nodes
    ensures PayloadUsed(Example(env, x), n.payloadRef) && ProvenanceUsed(Example(env, x), n.provenanceRef)
    ensures TemporalUsed(Example(env, x), n.temporalRef) && IntegrityUsed(Example(env, x), n.integrityRef)
  {
  }

  lemma EdgeUses(env: Env, x: Ids, e: CanonicalEdge)
    requires Named(x)
    requires e in Example(env, x).edges
    ensures ProvenanceUsed(Example(env, x), e.provenanceRef)
  {
  }

  lemma ExampleProvenanceRefs(env: Env, x: Ids)
    requires Named(x)
    ensures forall id :: id in {"1", "2", "3", "4", "5"} ==> ProvenanceUsed(Example(env, x), id)
  {
    NodeUses(env, x, Node(x.source, SourceClaim, "3"));
    NodeUses(env, x, Node(x.derived, DerivedClaim, "2"));
    NodeUses(env, x, Node(x.root, DerivedClaim, "1"));
    EdgeUses(env, x, CanonicalEdge("y", x.source, x.root, DerivedFrom, "4"));
    EdgeUses(env, x, CanonicalEdge("z", x.derived, x.root, DerivedFrom, "5"));
  }

  lemma ExampleProvenanceUsed(env: Env, x: Ids)
    requires Named(x)
    ensures forall p :: p in Example(env, x).provenance ==> ProvenanceUsed(Example(env, x), p.id)
  {
    ExampleProvenanceRefs(env, x);
    forall p | p in Example(env, x).provenance
      ensures p.id in {"1", "2", "3", "4", "5"}
    {
      var i :| 0 <= i < 5 && Example(env, x).provenance[i] == p;
    }
  }

  lemma ExampleNoPadding(env: Env, x: Ids)
    requires Named(x)
    ensures NoPadding(Example(env, x))
  {
    NodeUses(env, x, Example(env, x).nodes[0]);
    ExampleProvenanceUsed(env, x);
  }

  lemma ExampleCovers(env: Env, x: Ids, body: string)
    requires Named(x)
    requires env.leafValid(ExampleCut(env, x), SourceLeaf(x.source, body))
    ensures RulesCover(Example(env, x), ExampleBasis(env, x, body).rules)
    ensures LeavesCover(env, ExampleCut(env, x), Example(env, x), ExampleBasis(env, x, body).sourceLeaves)
  {
    var rules, leaves := ExampleBasis(env, x, body).rules, ExampleBasis(env, x, body).sourceLeaves;
    ExampleNodes(env, x);
    ExampleDerivations(env, x);
    assert rules[0] in rules && rules[1] in rules && leaves[0] in leaves;
    assert RuleNode(rules[0]) == x.derived && RuleNode(rules[1]) == x.root;
  }

  lemma ExampleAccepted(env: Env, x: Ids, body: string)
    requires Named(x)
    requires env.leafValid(ExampleCut(env, x), SourceLeaf(x.source, body))
    ensures ClosureAccepted(env, ExampleCut(env, x), ExampleBasis(env, x, body))
  {
    ExampleRecordsValid(env, x);
    ExampleNodesValid(env, x);
    ExampleEdgesValid(env, x);
    ExampleDerivationsValid(env, x);
    ExampleCovered(env, x);
    ExampleNodesMatch(env, x);
    ExampleNodes(env, x);
    ExampleEdgesMatch(env, x);
    ExampleNoPadding(env, x);
    ExampleGraph(env, x);
    ExampleCovers(env, x, body);
  }

  lemma ExampleShares(env: Env, x: Ids)
    requires Named(x) && !Leq(x.source, x.derived)
    ensures !NoReversedSharing(Example(env, x))
  {
    ExampleDerivations(env, x);
    var e := Example(env, x).edges[0];
    assert e in Example(env, x).edges;
    assert !Leq(x.source, x.derived);
  }

  lemma ExampleCounts(env: Env, x: Ids, body: string)
    ensures WithinCounts(ExampleBasis(env, x, body))
  {
  }

  lemma LettersClean()
    ensures forall s {:trigger BoundedText(s)} :: |s| == 1 && '!' <= s[0] <= 'z' ==> BoundedText(s)
    ensures BoundedText("")
  {
    forall s: string | |s| == 1 && '!' <= s[0] <= 'z'
      ensures BoundedText(s)
    {
      LetterFacts(s);
    }
    ShortText("");
  }

  lemma ExampleNodesClean(env: Env, x: Ids)
    requires NamesBounded(x)
    ensures forall n :: n in Example(env, x).nodes ==> CleanNode(n)
  {
    var nodes := Example(env, x).nodes;
    LettersClean();
    assert forall i :: 0 <= i < |nodes| ==> CleanNode(nodes[i]);
  }

  lemma ExampleEdgesClean(env: Env, x: Ids)
    requires NamesBounded(x)
    ensures forall e :: e in Example(env, x).edges ==> CleanEdge(e)
  {
    var edges := Example(env, x).edges;
    LettersClean();
    assert forall i :: 0 <= i < |edges| ==> CleanEdge(edges[i]);
  }

  lemma ExampleDerivationsClean(env: Env, x: Ids)
    requires NamesBounded(x)
    ensures forall d :: d in Example(env, x).derivations ==> CleanDerivation(d)
  {
    var derivations := Example(env, x).derivations;
    LettersClean();
    assert forall i :: 0 <= i < |derivations| ==> CleanDerivation(derivations[i]);
  }

  lemma ProvClean(id: Id, origins: seq<string>)
    requires BoundedText(id) && |origins| <= 2 && forall i :: 0 <= i < |origins| ==> BoundedText(origins[i])
    ensures CleanProvenance(Prov(id, origins))
  {
    LettersClean();
  }

  lemma ExampleProvenanceClean(env: Env, x: Ids)
    requires NamesBounded(x)
    ensures forall p :: p in Example(env, x).provenance ==> CleanProvenance(p)
  {
    var p := Example(env, x).provenance;
    LettersClean();
    ProvClean("1", [x.source, x.derived]);
    ProvClean("2", [x.source]);
    ProvClean("3", ["o"]);
    ProvClean("4", [x.source, x.root]);
    ProvClean("5", [x.derived, x.root]);
    assert forall i :: 0 <= i < |p| ==> CleanProvenance(p[i]);
  }

  lemma ExamplePayloadClean()
    ensures CleanPayload(PAYLOAD)
  {
    LettersClean();
  }

  lemma ExampleSidecarsClean(env: Env, x: Ids)
    requires BoundedText(env.digest(PAYLOAD))
    ensures var a := Example(env, x);
            && (forall p :: p in a.payloads ==> CleanPayload(p))
            && (forall t :: t in a.temporal ==> BoundedText(t.id) && BoundedText(t.body))
            && (forall i :: i in a.integrity ==> BoundedText(i.id) && BoundedText(i.digest))
  {
    LetterFacts("t");
    LetterFacts("i");
    ShortText("");
    ExamplePayloadClean();
  }

  lemma ExampleArtifactClean(env: Env, x: Ids)
    requires NamesBounded(x)
    requires BoundedText(env.digest(PAYLOAD))
    ensures CleanArtifact(Example(env, x))
  {
    LetterFacts("n");
    ExampleSidecarsClean(env, x);
    ExampleNodesClean(env, x);
    ExampleEdgesClean(env, x);
    ExampleDerivationsClean(env, x);
    ExampleProvenanceClean(env, x);
    SchemaClean(Example(env, x).schemaVersion);
  }

  lemma ExampleWithinBounds(env: Env, x: Ids, body: string)
    requires NamesBounded(x)
    requires BoundedText(ExampleCut(env, x).id) && BoundedText(env.digest(PAYLOAD))
    ensures WithinBounds(ExampleBasis(env, x, body))
  {
    ExampleCounts(env, x, body);
    ExampleArtifactClean(env, x);
    LettersClean();
    ExampleRulesClean(env, x, body);
  }

  lemma ExampleRulesClean(env: Env, x: Ids, body: string)
    requires NamesBounded(x)
    ensures forall r :: r in ExampleBasis(env, x, body).rules ==> CleanRule(r)
  {
    var rules := ExampleBasis(env, x, body).rules;
    LettersClean();
    LetterFacts("a");
    assert CleanRule(rules[0]) && CleanRule(rules[1]);
  }

  lemma SchemaNulFree()
    ensures NulFree(CANONICAL_SCHEMA)
  {
    assert CANONICAL_SCHEMA == "canonical-evidence" + "-graph/v1";
    assert NulFree("canonical-evidence") && NulFree("-graph/v1");
  }

  lemma SchemaClean(schema: string)
    requires schema == CANONICAL_SCHEMA
    ensures BoundedText(schema)
  {
    SchemaNulFree();
    ShortText(schema);
  }

  lemma ExampleReviewable(env: Env, x: Ids, body: string)
    requires x.Valid() && BoundedText(env.digest(PAYLOAD))
    requires TypedId(ExampleCut(env, x).id, CUT_PREFIX, MAX_CUT_ID_BYTES)
    requires env.leafValid(ExampleCut(env, x), SourceLeaf(x.source, body))
    ensures Reviewable(env, ExampleCut(env, x), ExampleBasis(env, x, body))
  {
    ValidNames(x);
    ExampleCutValid(env, x);
    ExampleWithinBounds(env, x, body);
    ExampleRootDerived(env, x);
    ExampleAccepted(env, x, body);
    AllReviewable(env, ExampleCut(env, x), ExampleBasis(env, x, body));
  }

  lemma ExampleRootDerived(env: Env, x: Ids)
    requires Named(x)
    ensures var specs := Specifications(ExampleCut(env, x));
            x.root in specs && specs[x.root].nodeKind == DerivedClaim
  {
    ExampleCutIndex(env, x);
  }

  lemma AllReviewable(env: Env, cut: AdmittedCut, b: RecursiveBasis)
    requires WithinBounds(b) && ValidCut(env, cut) && b.admittedCutId == cut.id
    requires b.rootNodeId in Specifications(cut) && Specifications(cut)[b.rootNodeId].nodeKind == DerivedClaim
    requires ClosureAccepted(env, cut, b)
    ensures Reviewable(env, cut, b)
  {
  }

  lemma ReversedSharingBreaks(env: Env, cut: AdmittedCut, b: RecursiveBasis, digest: RecursiveBasis -> string)
    requires Reviewable(env, cut, b) && !NoReversedSharing(b.ancestors)
    ensures !Reviewable(env, cut, Sealed(b, digest))
  {
    SealedAccepted(env, cut, b, digest);
  }

  /**
   Admissible as supplied, no longer so once sealed, whatever the names, payload digest, claim
   hash and content address: the cut is one the program admits, and the only hypotheses are
   that names and digests are texts of the right shape, that the source review of the one leaf
   is valid and that the basis is not too long.
   */
  lemma SealingCanBreakAcceptance(env: Env, x: Ids, body: string, digest: RecursiveBasis -> string)
    requires x.Valid() && BoundedText(env.digest(PAYLOAD))
    requires TypedId(ExampleCut(env, x).id, CUT_PREFIX, MAX_CUT_ID_BYTES)
    requires env.leafValid(ExampleCut(env, x), SourceLeaf(x.source, body)) && SizeFits(env, ExampleBasis(env, x, body))
    ensures var cut, b := ExampleCut(env, x), ExampleBasis(env, x, body);
            && ValidCut(env, cut) && Admissible(env, cut, b)
            && !Reviewable(env, cut, Sealed(b, digest)) && !Admissible(env, cut, Sealed(b, digest))
  {
    var cut, b := ExampleCut(env, x), ExampleBasis(env, x, body);
    ExampleReviewable(env, x, body);
    ValidNames(x);
    ExampleShares(env, x);
    ReversedSharingBreaks(env, cut, b, digest);
  }

  /** Names of this kind exist. */
  lemma ExampleNames() returns (x: Ids)
    ensures x.Valid()
  {
    x := Ids(NODE_PREFIX + ['d'], NODE_PREFIX + ['r'], NODE_PREFIX + ['s'], NODE_PREFIX + ['i'], seq(40, i => '0'));
    LeqPrefixed(NODE_PREFIX, ['d'], ['r']);
    LeqPrefixed(NODE_PREFIX, ['r'], ['s']);
    LetterName('d');
    LetterName('r');
    LetterName('s');
    LetterName('i');
  }

  lemma LetterName(c: char)
    requires '!' <= c <= 'z'
    ensures var id := NODE_PREFIX + [c]; TypedId(id, NODE_PREFIX, MAX_NODE_ID_BYTES) && |id| == 12 && id[11] == c
  {
    var id := NODE_PREFIX + [c];
    assert NulFree(id) && Tight(id);
    TrimFacts(id);
    Utf8SizeBound(id);
  }

  lemma ExampleCutIndex(env: Env, x: Ids)
    requires Named(x)
    ensures var c := ExampleCut(env, x).specifications;
            Specifications(ExampleCut(env, x)) == map[x.derived := c[0], x.root := c[1], x.source := c[2]]
  {
    var c := ExampleCut(env, x).specifications;
    IndexOne(c[0], SpecificationId);
    IndexMore([c[0]], c[1], SpecificationId);
    IndexMore([c[0], c[1]], c[2], SpecificationId);
    assert c == [c[0], c[1]] + [c[2]] && [c[0], c[1]] == [c[0]] + [c[1]];
  }
}
