/**
 The store of ordinary admissions. Each public method is one transaction: it either makes
 exactly the step the specification names or leaves every field as it was.
 */
module AdmissionStore {
  import opened Outcomes
  import opened Ordering
  import opened Evidence
  import opened Identity
  import opened AdmissionModel
  import opened AdmissionSpec
  import opened AdmissionInvariant
  import opened AdmissionReplay
  import opened AdmissionHistory

  // ----- facts about the loops below -----

  lemma NodesWithStep(nodes: map<Id, Node>, more: seq<Node>, i: nat)
    requires i < |more|
    ensures NodesWith(nodes, more[..i + 1]) ==
            if more[i].id in nodes then NodesWith(nodes, more[..i])
            else NodesWith(nodes, more[..i])[more[i].id := more[i]]
  {
    assert more[..i + 1][..i] == more[..i];
  }

  lemma EdgesWithStep(edges: map<Id, Edge>, more: seq<Edge>, i: nat)
    requires i < |more|
    ensures EdgesWith(edges, more[..i + 1]) ==
            if more[i].id in edges then EdgesWith(edges, more[..i])
            else EdgesWith(edges, more[..i])[more[i].id := more[i]]
  {
    assert more[..i + 1][..i] == more[..i];
  }

  lemma NodeStillNew(nodes: map<Id, Node>, more: seq<Node>, i: nat)
    requires DistinctKeys(more, NodeKey) && i < |more|
    ensures more[i].id in NodesWith(nodes, more[..i]) <==> more[i].id in nodes
    ensures more[i].id in nodes ==> NodesWith(nodes, more[..i])[more[i].id] == nodes[more[i].id]
  {
    IndexKeys(more[..i], NodeKey);
    forall n | n in more[..i]
      ensures NodeKey(n) != NodeKey(more[i])
    {
      var k :| 0 <= k < i && more[k] == n;
    }
  }

  lemma AuthorityIgnoresRows(db: Db, nodes: map<Id, Node>, edges: map<Id, Edge>, id: Id, owner: Id)
    ensures NodeWriters(db.(nodes := nodes, edges := edges), id, owner) == NodeWriters(db, id, owner)
    ensures EdgeWriters(db.(nodes := nodes, edges := edges), id, owner) == EdgeWriters(db, id, owner)
  {
    var db' := db.(nodes := nodes, edges := edges);
    assert forall d :: Authoritative(db', d, owner) <==> Authoritative(db, d, owner);
  }

  /** Rows the same mutation already inserted do not change whether the next one fits. */
  lemma NodeFitsInside(db: Db, more: seq<Node>, i: nat, reuse: bool)
    requires DistinctKeys(more, NodeKey) && i < |more|
    ensures NodeFits(db.(nodes := NodesWith(db.nodes, more[..i])), more[i], reuse) <==> NodeFits(db, more[i], reuse)
    ensures HowNode(db.(nodes := NodesWith(db.nodes, more[..i])), more[i].id) == HowNode(db, more[i].id)
  {
    NodeStillNew(db.nodes, more, i);
    if more[i].id in db.nodes {
      AuthorityIgnoresRows(db, NodesWith(db.nodes, more[..i]), db.edges, more[i].id, db.nodes[more[i].id].origin);
    }
  }

  lemma EdgeCollisionsInside(edges: map<Id, Edge>, more: seq<Edge>, i: nat)
    requires DistinctKeys(more, EdgeKey) && DistinctKeys(more, TripleKey) && i < |more|
    ensures Colliding(EdgesWith(edges, more[..i]), more[i]) == Colliding(edges, more[i])
    ensures more[i].id in EdgesWith(edges, more[..i]) <==> more[i].id in edges
    ensures more[i].id in edges ==> EdgesWith(edges, more[..i])[more[i].id] == edges[more[i].id]
  {
    var inside := EdgesWith(edges, more[..i]);
    forall id | id in inside && id !in edges
      ensures id != more[i].id && !inside[id].SameTriple(more[i])
    {
      var k := FindEdge(edges, more[..i], id);
      assert EdgeKey(more[k]) != EdgeKey(more[i]);
      assert TripleKey(more[k]) != TripleKey(more[i]);
    }
  }

  lemma EdgeFitsInside(db: Db, more: seq<Edge>, i: nat, reuse: bool)
    requires DistinctKeys(more, EdgeKey) && DistinctKeys(more, TripleKey) && i < |more|
    ensures EdgeFits(db.(edges := EdgesWith(db.edges, more[..i])), more[i], reuse) <==> EdgeFits(db, more[i], reuse)
    ensures more[i].id in EdgesWith(db.edges, more[..i]) <==> more[i].id in db.edges
  {
    EdgeCollisionsInside(db.edges, more, i);
    if more[i].id in db.edges {
      AuthorityIgnoresRows(db, db.nodes, EdgesWith(db.edges, more[..i]), more[i].id, db.edges[more[i].id].origin);
    }
  }

  ghost predicate EdgeFitsAt(db: Db, m: Mutation, i: nat)
    requires i < |m.edges|
  {
    EdgeFits(db, m.edges[i], m.derivation.None?)
  }

  lemma AllEdgesFit(db: Db, m: Mutation)
    ensures (forall i :: 0 <= i < |m.edges| ==> EdgeFitsAt(db, m, i)) <==> EdgesFit(db, m)
  {
    if forall i :: 0 <= i < |m.edges| ==> EdgeFitsAt(db, m, i) {
      forall i | 0 <= i < |m.edges|
        ensures EdgeFits(db, m.edges[i], m.derivation.None?)
      {
        assert EdgeFitsAt(db, m, i);
      }
    }
  }

  lemma BindingsStep(bindings: seq<Binding>, i: nat)
    requires i < |bindings|
    ensures bindings[..i + 1] == bindings[..i] + [bindings[i]]
  {
  }

  // ----- checks that change nothing -----

  method ValidateIdentity(m: Mutation) returns (ok: bool)
    ensures ok <==> DistinctRows(m)
  {
    var nodeIds := CollectDistinct(m.nodes, NodeKey, (n: Node) => true);
    if nodeIds.None? {
      return false;
    }
    var edgeIds := CollectDistinct(m.edges, EdgeKey, (e: Edge) => true);
    if edgeIds.None? {
      return false;
    }
    var triples := CollectDistinct(m.edges, TripleKey, (e: Edge) => true);
    return triples.Some?;
  }

  /** Follows derived_from edges layer by layer until nothing new is reached. */
  method FindCycle(edges: map<Id, Edge>, start: Id, targets: set<Id>) returns (found: bool)
    requires start !in targets
    ensures found <==> CycleWitness(edges, start, targets)
  {
    var reached, ends := {start}, set id | id in edges :: edges[id].to;
    assert DerivedPath(edges, [start]);
    while true
      invariant start in reached && reached <= ends + {start}
      invariant forall x :: x in reached ==> ReachedBy(edges, start, x)
      decreases ends + {start} - reached
    {
      var next := set id | id in edges && edges[id].relation == DerivedFrom && edges[id].from in reached
                           && edges[id].to !in reached :: edges[id].to;
      if next == {} {
        assert forall id ::
          id in edges && edges[id].relation == DerivedFrom && edges[id].from in reached && edges[id].to !in reached ==>
            edges[id].to in next;
        break;
      }
      forall x | x in next
        ensures ReachedBy(edges, start, x)
      {
        ghost var id :| id in edges && edges[id].relation == DerivedFrom && edges[id].from in reached
                        && edges[id].to == x;
        ReachedFurther(edges, start, edges[id].from, x);
      }
      ghost var x :| x in next;
      reached := reached + next;
    }
    found := reached * targets != {};
    if found {
      ghost var x :| x in reached * targets;
      assert ReachedBy(edges, start, x);
    } else {
      forall path | DerivedPath(edges, path) && |path| > 1 && path[0] == start
        ensures path[|path| - 1] !in targets
      {
        StaysReached(edges, reached, path);
        assert path[|path| - 1] in targets <==> path[|path| - 1] in reached * targets;
      }
    }
  }

  ghost predicate ReachedBy(edges: map<Id, Edge>, start: Id, x: Id) {
    exists path :: DerivedPath(edges, path) && |path| > 0 && path[0] == start && path[|path| - 1] == x
  }

  lemma ReachedFurther(edges: map<Id, Edge>, start: Id, x: Id, y: Id)
    requires ReachedBy(edges, start, x) && DerivedStep(edges, x, y)
    ensures ReachedBy(edges, start, y)
  {
    var path :| DerivedPath(edges, path) && |path| > 0 && path[0] == start && path[|path| - 1] == x;
    var longer := path + [y];
    assert DerivedPath(edges, longer);
  }

  lemma {:induction false} StaysReached(edges: map<Id, Edge>, reached: set<Id>, path: seq<Id>)
    requires DerivedPath(edges, path) && |path| > 0 && path[0] in reached
    requires forall id :: id in edges && edges[id].relation == DerivedFrom && edges[id].from in reached ==>
             edges[id].to in reached
    ensures path[|path| - 1] in reached
  {
    if |path| > 1 {
      assert DerivedStep(edges, path[0], path[1]);
      assert DerivedPath(edges, path[1..]) by {
        forall i | 0 <= i < |path[1..]| - 1
          ensures DerivedStep(edges, path[1..][i], path[1..][i + 1])
        {
          assert DerivedStep(edges, path[i + 1], path[i + 2]);
        }
      }
      StaysReached(edges, reached, path[1..]);
    }
  }

  lemma SortedListsEqual(s: seq<Id>, t: seq<Id>)
    requires SortedBy(s, SelfKey) && NoDuplicates(s) && SortedBy(t, SelfKey) && NoDuplicates(t)
    ensures s == t <==> Elements(s) == Elements(t)
  {
    if Elements(s) == Elements(t) {
      forall x
        ensures x in s <==> x in t
      {
        assert x in s <==> x in Elements(s);
        assert x in t <==> x in Elements(t);
      }
      SortedUnique(s, t, SelfKey);
    }
  }

  /** The extra edges an old mutation may ignore are dropped; any other extra edge is a conflict. */
  method AttributedEdges(db: Db, m: Mutation, actual: seq<Id>, materialized: seq<Id>)
    returns (r: Result<seq<Id>, Error>)
    requires NoDuplicates(actual) && Elements(actual) == OwnedEdges(db, m.proposal)
    requires SortedBy(actual, SelfKey) && SortedBy(materialized, SelfKey) && NoDuplicates(materialized)
    ensures r == Ok(materialized) <==> EdgesAttributed(db, m, Elements(materialized))
    ensures r.Err? ==> r.error == ReplayConflict
  {
    if actual == materialized {
      return Ok(actual);
    }
    var result: seq<Id> := [];
    assert forall k :: 0 <= k < |actual| ==> actual[k] in Elements(actual);
    for i := 0 to |actual|
      invariant result == KeptIds(actual[..i], materialized)
      invariant forall k :: 0 <= k < |actual| ==> actual[k] in db.edges
      invariant forall k :: 0 <= k < i && actual[k] !in materialized ==> Independent(db, m, db.edges[actual[k]])
    {
      assert actual[..i + 1] == actual[..i] + [actual[i]] && actual[..i + 1][..i] == actual[..i];
      assert actual[i] in Elements(actual);
      if actual[i] in materialized {
        result := result + [actual[i]];
        continue;
      }
      if !Independent(db, m, db.edges[actual[i]]) {
        return Err(ReplayConflict);
      }
    }
    assert actual[..|actual|] == actual;
    assert forall id :: id in OwnedEdges(db, m.proposal) ==> id in Elements(actual);
    KeptIsAll(actual, materialized);
    return Ok(result);
  }

  function KeptIds(actual: seq<Id>, materialized: seq<Id>): seq<Id> {
    if actual == [] then []
    else
      var front, last := actual[..|actual| - 1], actual[|actual| - 1];
      if last in materialized then KeptIds(front, materialized) + [last] else KeptIds(front, materialized)
  }

  lemma AppendSorted(s: seq<Id>, x: Id)
    requires SortedBy(s, SelfKey) && NoDuplicates(s)
    requires forall y :: y in s ==> Leq(y, x) && y != x
    ensures SortedBy(s + [x], SelfKey) && NoDuplicates(s + [x])
  {
    LeqTotal(x, x);
  }

  lemma LastIsLargest(front: seq<Id>, last: Id)
    requires SortedBy(front + [last], SelfKey) && NoDuplicates(front + [last])
    ensures forall y :: y in front ==> Leq(y, last) && y != last
    ensures SortedBy(front, SelfKey) && NoDuplicates(front)
  {
    var s := front + [last];
    forall y | y in front
      ensures Leq(y, last) && y != last
    {
      var i :| 0 <= i < |front| && front[i] == y;
      assert s[i] == y && Leq(SelfKey(s[i]), SelfKey(s[|front|]));
    }
    assert forall i :: 0 <= i < |front| ==> s[i] == front[i];
  }

  lemma {:induction false} KeptFacts(actual: seq<Id>, materialized: seq<Id>)
    requires SortedBy(actual, SelfKey) && NoDuplicates(actual)
    ensures SortedBy(KeptIds(actual, materialized), SelfKey) && NoDuplicates(KeptIds(actual, materialized))
    ensures forall x :: x in KeptIds(actual, materialized) <==> x in actual && x in materialized
  {
    if actual != [] {
      var front, last := actual[..|actual| - 1], actual[|actual| - 1];
      assert actual == front + [last];
      LastIsLargest(front, last);
      KeptFacts(front, materialized);
      if last in materialized {
        AppendSorted(KeptIds(front, materialized), last);
      }
    }
  }

  /** What is kept is the whole materialized list exactly when all of it is there. */
  lemma KeptIsAll(actual: seq<Id>, materialized: seq<Id>)
    requires SortedBy(actual, SelfKey) && NoDuplicates(actual) && SortedBy(materialized, SelfKey)
             && NoDuplicates(materialized)
    ensures KeptIds(actual, materialized) == materialized <==> Elements(materialized) <= Elements(actual)
  {
    KeptFacts(actual, materialized);
    SortedListsEqual(KeptIds(actual, materialized), materialized);
    assert forall x :: x in materialized <==> x in Elements(materialized);
    assert forall x :: x in actual <==> x in Elements(actual);
  }

  method CheckNodeBinding(db: Db, m: Mutation, b: Binding, i: nat) returns (ok: bool)
    requires i < |m.nodes|
    ensures ok <==> NodeBindingHolds(db, m, b, i)
  {
    if b.role != (if i == 0 then CanonicalRef else RawNode) || b.position != (if i == 0 then 0 else i - 1)
       || b.id != m.nodes[i].id {
      return false;
    }
    if b.id !in db.nodes || db.nodes[b.id].body != m.nodes[i].body {
      return false;
    }
    var origin := db.nodes[b.id].origin;
    match b.how {
      case Materialized => return origin == m.proposal;
      case Reused => return origin != m.proposal && |NodeWriters(db, b.id, origin)| == 1;
    }
  }

  method CheckEdgeBinding(db: Db, m: Mutation, b: Binding, i: nat) returns (ok: bool)
    requires i < |m.edges|
    ensures ok <==> EdgeBindingHolds(db, m, b, i)
  {
    if b.role != (if m.edges[i].relation == DerivedFrom then Derived else Supports) || b.position != i
       || b.id != m.edges[i].id {
      return false;
    }
    if b.id !in db.edges || !db.edges[b.id].SameBody(m.edges[i]) {
      return false;
    }
    var origin := db.edges[b.id].origin;
    match b.how {
      case Materialized => return origin == m.proposal;
      case Reused =>
        return origin != m.proposal && m.derivation.None? && |EdgeWriters(db, b.id, origin)| == 1;
    }
  }

  function MaterializedList(bindings: seq<Binding>): seq<Id> {
    if bindings == [] then []
    else
      var front, last := bindings[..|bindings| - 1], bindings[|bindings| - 1];
      if last.how.Materialized? then MaterializedList(front) + [last.id] else MaterializedList(front)
  }

  lemma {:induction false} MaterializedListIds(bindings: seq<Binding>)
    ensures Elements(MaterializedList(bindings)) == MaterializedIds(bindings)
  {
    if bindings != [] {
      var front, last := bindings[..|bindings| - 1], bindings[|bindings| - 1];
      MaterializedListIds(front);
      assert MaterializedIds(bindings) ==
             MaterializedIds(front) + (if last.how.Materialized? then {last.id} else {}) by {
        forall i | 0 <= i < |front|
          ensures bindings[i] == front[i]
        {
        }
      }
    }
  }

  lemma {:induction false} MaterializedListDistinct(bindings: seq<Binding>)
    requires forall i, j :: 0 <= i < j < |bindings| ==> bindings[i].id != bindings[j].id
    ensures NoDuplicates(MaterializedList(bindings))
    ensures forall x :: x in MaterializedList(bindings) ==> exists i :: 0 <= i < |bindings| && bindings[i].id == x
  {
    if bindings != [] {
      var front, last := bindings[..|bindings| - 1], bindings[|bindings| - 1];
      MaterializedListDistinct(front);
      assert bindings == front + [last];
      forall x | x in MaterializedList(front)
        ensures x != last.id && exists i :: 0 <= i < |front| && bindings[i].id == x
      {
        var i :| 0 <= i < |front| && front[i].id == x;
        assert bindings[i].id == x && bindings[i].id != bindings[|bindings| - 1].id;
      }
      assert last.id !in MaterializedList(front);
      AppendDistinct(MaterializedList(front), last.id);
    }
  }

  /** Every node binding in order, collecting the ids this admission materialized. */
  method CheckNodeBindings(db: Db, m: Mutation, bindings: seq<Binding>) returns (r: Result<seq<Id>, Error>)
    requires |bindings| == |m.nodes|
    ensures r.Ok? <==> forall i :: 0 <= i < |m.nodes| ==> NodeBindingHolds(db, m, bindings[i], i)
    ensures r.Ok? ==> r.value == MaterializedList(bindings)
  {
    var ids: seq<Id> := [];
    for i := 0 to |bindings|
      invariant ids == MaterializedList(bindings[..i])
      invariant forall k :: 0 <= k < i ==> NodeBindingHolds(db, m, bindings[k], k)
    {
      assert bindings[..i + 1][..i] == bindings[..i];
      var ok := CheckNodeBinding(db, m, bindings[i], i);
      if !ok {
        return Err(ReplayConflict);
      }
      if bindings[i].how.Materialized? {
        ids := ids + [bindings[i].id];
      }
    }
    assert bindings[..|bindings|] == bindings;
    return Ok(ids);
  }

  method CheckEdgeBindings(db: Db, m: Mutation, bindings: seq<Binding>) returns (r: Result<seq<Id>, Error>)
    requires |bindings| == |m.edges|
    ensures r.Ok? <==> forall i :: 0 <= i < |m.edges| ==> EdgeBindingHolds(db, m, bindings[i], i)
    ensures r.Ok? ==> r.value == MaterializedList(bindings)
  {
    var ids: seq<Id> := [];
    for i := 0 to |bindings|
      invariant ids == MaterializedList(bindings[..i])
      invariant forall k :: 0 <= k < i ==> EdgeBindingHolds(db, m, bindings[k], k)
    {
      assert bindings[..i + 1][..i] == bindings[..i];
      var ok := CheckEdgeBinding(db, m, bindings[i], i);
      if !ok {
        return Err(ReplayConflict);
      }
      if bindings[i].how.Materialized? {
        ids := ids + [bindings[i].id];
      }
    }
    assert bindings[..|bindings|] == bindings;
    return Ok(ids);
  }

  method AllMaterialized(bindings: seq<Binding>) returns (ok: bool)
    ensures ok <==> forall i :: 0 <= i < |bindings| ==> bindings[i].how.Materialized?
  {
    for i := 0 to |bindings|
      invariant forall k :: 0 <= k < i ==> bindings[k].how.Materialized?
    {
      if !bindings[i].how.Materialized? {
        return false;
      }
    }
    return true;
  }

  lemma AttributionBySet(db: Db, m: Mutation, bindings: seq<Binding>, materialized: seq<Id>)
    requires Elements(materialized) == Elements(MaterializedList(bindings))
    ensures EdgesAttributed(db, m, Elements(materialized)) <==> EdgesAttributed(db, m, MaterializedIds(bindings))
  {
    MaterializedListIds(bindings);
  }

  /** The rows attributed to the proposal are exactly the bound ones and receipted relations. */
  method CheckAttribution(db: Db, m: Mutation, man: Manifest, nodeIds: seq<Id>, edgeIds: seq<Id>)
    returns (r: Result<bool, Error>)
    requires nodeIds == MaterializedList(man.nodes) && edgeIds == MaterializedList(man.edges)
    requires NoDuplicates(nodeIds) && NoDuplicates(edgeIds)
    ensures r.Ok? <==>
            && OwnedNodes(db, m.proposal) == MaterializedIds(man.nodes)
            && EdgesAttributed(db, m, MaterializedIds(man.edges))
  {
    var materializedNodes, materializedEdges := SortBy(nodeIds, SelfKey), SortBy(edgeIds, SelfKey);
    SortedOnce(nodeIds);
    SortedOnce(edgeIds);
    var actualNodes := SortedIds(OwnedNodes(db, m.proposal));
    var actualEdges := SortedIds(OwnedEdges(db, m.proposal));
    MaterializedListIds(man.nodes);
    SortedListsEqual(actualNodes, materializedNodes);
    AttributionBySet(db, m, man.edges, materializedEdges);
    var attributed := AttributedEdges(db, m, actualEdges, materializedEdges);
    if attributed.Err? {
      return Err(attributed.error);
    }
    if actualNodes != materializedNodes || attributed.value != materializedEdges {
      return Err(ReplayConflict);
    }
    return Ok(true);
  }

  /** The stored authority of an admission, row by row, against the mutation rebuilt from its input. */
  method ValidatePersistedMutation(db: Db, m: Mutation) returns (r: Result<bool, Error>)
    requires ManifestsSound(db)
    ensures r.Ok? <==> RowsHold(db, m)
  {
    if m.decision !in db.manifests || !ManifestFits(db.manifests[m.decision], m) {
      return Err(ReplayConflict);
    }
    var man := db.manifests[m.decision];
    var nodeIds := CheckNodeBindings(db, m, man.nodes);
    if nodeIds.Err? {
      return Err(nodeIds.error);
    }
    var edgeIds := CheckEdgeBindings(db, m, man.edges);
    if edgeIds.Err? {
      return Err(edgeIds.error);
    }
    if m.derivation.Some? {
      var ok := AllMaterialized(man.nodes);
      if !ok {
        return Err(ReplayConflict);
      }
    }
    assert ManifestSound(db, m.decision);
    MaterializedListDistinct(man.nodes);
    MaterializedListDistinct(man.edges);
    r := CheckAttribution(db, m, man, nodeIds.value, edgeIds.value);
  }

  /** The decision and derivation stored for a proposal, against the rebuilt mutation. */
  method ValidateReplay(db: Db, p: Proposal, m: Mutation, input: AdmissionInput) returns (r: Result<bool, Error>)
    requires EachDerivationSound(db) && OneDerivationEach(db.derivations)
    requires m.derivation.Some? ==> m.derivation.value.nodeId == m.canonicalRef
    ensures r.Ok? <==> DecisionHolds(db, p, m, input)
  {
    if m.decision !in db.decisions || db.decisions[m.decision] != DecisionFor(m, input)
       || p.canonicalRef != m.canonicalRef {
      return Err(ReplayConflict);
    }
    var rows := set k | k in db.derivations && db.derivations[k].record.nodeId == m.canonicalRef;
    if rows == {} {
      assert forall k :: k in db.derivations ==> k !in rows;
      if m.derivation.Some? {
        return Err(ReplayConflict);
      }
      return Ok(true);
    }
    var k :| k in rows;
    if m.derivation.None? || db.derivations[k] != DerivationRow(m.derivation.value, m.parentEdges, m.proposal) {
      return Err(ReplayConflict);
    }
    return Ok(true);
  }

  // ----- the store -----

  datatype AdmissionReply = AdmissionReply(
    proposal: Id, canonicalRef: Id, decision: Id, rawNodes: seq<Id>, edges: seq<Id>, derivation: Option<Id>,
    parents: seq<Id>, replayed: bool)

  const OCCURRENCE_PREFIX := "occ:"

  /** The input names a proposal the store knows. */
  predicate Addressed(db: Db, input: AdmissionInput) {
    OCCURRENCE_PREFIX <= input.proposal && input.proposal in db.proposals
  }

  ghost predicate Accepts(codec: Codec, db: Db, input: AdmissionInput) {
    && Addressed(db, input)
    && match db.proposals[input.proposal].outcome
       case Pending => Admissible(codec, db, db.proposals[input.proposal], input)
       case Admitted => ReplayHolds(codec, db, input)
       case Rejected => false
       case AuditOnly => false
  }

  method BuildWellFormed(codec: Codec, p: Proposal, input: AdmissionInput) returns (r: Result<Mutation, Error>)
    ensures r.Ok? <==> Buildable(p, input)
    ensures r.Ok? ==> r.value == Build(codec, p, input) && WellFormed(r.value)
  {
    r := BuildMutation(codec, p, input);
    if r.Ok? {
      BuiltWellFormed(codec, p, input);
    }
  }

  class AdmissionStore {
    const codec: Codec
    var proposals: map<Id, Proposal>
    var nodes: map<Id, Node>
    var edges: map<Id, Edge>
    var derivations: map<Id, DerivationRow>
    var decisions: map<Id, Decision>
    var manifests: map<Id, Manifest>
    var receipts: map<Id, Receipt>

    function View(): Db
      reads this
    {
      Db(proposals, nodes, edges, derivations, decisions, manifests, receipts)
    }

    constructor (codec: Codec)
      ensures this.codec == codec && View() == EMPTY && Inv(View())
    {
      this.codec := codec;
      proposals, nodes, edges, derivations := map[], map[], map[], map[];
      decisions, manifests, receipts := map[], map[], map[];
      new;
      EmptyInv();
    }

    method Restore(db: Db)
      modifies this
      ensures View() == db
    {
      proposals, nodes, edges, derivations := db.proposals, db.nodes, db.edges, db.derivations;
      decisions, manifests, receipts := db.decisions, db.manifests, db.receipts;
    }

    method InsertOrValidateNode(n: Node, allowReuse: bool) returns (r: Result<Materialization, Error>)
      modifies this`nodes
      ensures r.Ok? <==> NodeFits(old(View()), n, allowReuse)
      ensures r.Ok? ==> r.value == HowNode(old(View()), n.id)
      ensures nodes == if r.Ok? && n.id !in old(nodes) then old(nodes)[n.id := n] else old(nodes)
    {
      if n.id !in nodes {
        nodes := nodes[n.id := n];
        return Ok(Materialized);
      }
      if !allowReuse {
        return Err(CanonicalInvariant);
      }
      var row := nodes[n.id];
      if row.body != n.body || row.origin == n.origin {
        return Err(CanonicalInvariant);
      }
      if |NodeWriters(View(), n.id, row.origin)| != 1 {
        return Err(CanonicalInvariant);
      }
      return Ok(Reused);
    }

    method InsertOrValidateEdge(e: Edge, allowReuse: bool) returns (r: Result<Materialization, Error>)
      modifies this`edges
      ensures r.Ok? <==> EdgeFits(old(View()), e, allowReuse)
      ensures r.Ok? ==> r.value == HowEdge(old(View()), e.id)
      ensures edges == if r.Ok? && e.id !in old(edges) then old(edges)[e.id := e] else old(edges)
    {
      var candidates := Colliding(edges, e);
      if candidates == {} {
        assert e.id !in candidates;
        edges := edges[e.id := e];
        return Ok(Materialized);
      }
      if !allowReuse || |candidates| != 1 || e.id !in edges {
        return Err(CanonicalInvariant);
      }
      var row := edges[e.id];
      if !row.SameBody(e) || row.origin == e.origin {
        return Err(CanonicalInvariant);
      }
      if |EdgeWriters(View(), e.id, row.origin)| != 1 {
        return Err(CanonicalInvariant);
      }
      return Ok(Reused);
    }

    method PersistNode(ghost db: Db, m: Mutation, i: nat) returns (r: Result<Materialization, Error>)
      requires DistinctRows(m) && i < |m.nodes| && View() == db.(nodes := NodesWith(db.nodes, m.nodes[..i]))
      modifies this`nodes
      ensures r.Ok? <==> NodeFits(db, m.nodes[i], m.derivation.None?)
      ensures r.Ok? ==> r.value == HowNode(db, m.nodes[i].id)
      ensures r.Ok? ==> View() == db.(nodes := NodesWith(db.nodes, m.nodes[..i + 1]))
    {
      NodeFitsInside(db, m.nodes, i, m.derivation.None?);
      NodeStillNew(db.nodes, m.nodes, i);
      NodesWithStep(db.nodes, m.nodes, i);
      r := InsertOrValidateNode(m.nodes[i], m.derivation.None?);
    }

    /** Inserts or reuses every node in order; the bindings say which. */
    method PersistNodes(m: Mutation) returns (r: Result<seq<Binding>, Error>)
      requires DistinctRows(m)
      modifies this`nodes
      ensures r.Ok? <==> forall i :: 0 <= i < |m.nodes| ==> NodeFits(old(View()), m.nodes[i], m.derivation.None?)
      ensures r.Ok? ==> nodes == NodesWith(old(nodes), m.nodes) && r.value == NodeBindings(old(View()), m)
    {
      ghost var db := View();
      var bindings: seq<Binding> := [];
      for i := 0 to |m.nodes|
        invariant View() == db.(nodes := NodesWith(db.nodes, m.nodes[..i]))
        invariant bindings == NodeBindings(db, m)[..i]
        invariant forall k :: 0 <= k < i ==> NodeFits(db, m.nodes[k], m.derivation.None?)
      {
        var how := PersistNode(db, m, i);
        if how.Err? {
          return Err(how.error);
        }
        BindingsStep(NodeBindings(db, m), i);
        bindings := bindings + [NodeBinding(i, m.nodes[i].id, how.value)];
      }
      assert m.nodes[..|m.nodes|] == m.nodes;
      return Ok(bindings);
    }

    method PersistEdge(ghost db: Db, m: Mutation, i: nat) returns (r: Result<Materialization, Error>)
      requires DistinctRows(m) && i < |m.edges| && View() == db.(edges := EdgesWith(db.edges, m.edges[..i]))
      modifies this`edges
      ensures r.Ok? <==> EdgeFitsAt(db, m, i)
      ensures r.Ok? ==> r.value == HowEdge(db, m.edges[i].id)
      ensures r.Ok? ==> View() == db.(edges := EdgesWith(db.edges, m.edges[..i + 1]))
    {
      EdgeFitsInside(db, m.edges, i, m.derivation.None?);
      EdgesWithStep(db.edges, m.edges, i);
      r := InsertOrValidateEdge(m.edges[i], m.derivation.None?);
    }

    method PersistEdges(ghost db: Db, m: Mutation) returns (r: Result<seq<Binding>, Error>)
      requires DistinctRows(m) && View() == db
      modifies this`edges
      ensures r.Ok? <==> forall i :: 0 <= i < |m.edges| ==> EdgeFitsAt(db, m, i)
      ensures r.Ok? ==> edges == EdgesWith(db.edges, m.edges) && r.value == EdgeBindings(db, m)
    {
      ghost var all := EdgeBindings(db, m);
      var bindings: seq<Binding> := [];
      for i := 0 to |m.edges|
        invariant View() == db.(edges := EdgesWith(db.edges, m.edges[..i]))
        invariant bindings == all[..i]
        invariant forall k :: 0 <= k < i ==> EdgeFitsAt(db, m, k)
      {
        var how := PersistEdge(db, m, i);
        if how.Err? {
          return Err(how.error);
        }
        BindingsStep(all, i);
        bindings := bindings + [EdgeBinding(i, m.edges[i].relation, m.edges[i].id, how.value)];
      }
      assert m.edges[..|m.edges|] == m.edges;
      return Ok(bindings);
    }

    method PersistMutation(m: Mutation) returns (r: Result<(seq<Binding>, seq<Binding>), Error>)
      modifies this`nodes, this`edges
      ensures r.Ok? <==> Persistable(old(View()), m)
      ensures r.Ok? ==> View() == RowsAfter(old(View()), m)
      ensures r.Ok? ==> r.value == (NodeBindings(old(View()), m), EdgeBindings(old(View()), m))
    {
      var distinct := ValidateIdentity(m);
      if !distinct {
        return Err(CanonicalInvariant);
      }
      ghost var db := View();
      var nodeBindings := PersistNodes(m);
      if nodeBindings.Err? {
        return Err(nodeBindings.error);
      }
      NodesDoNotMatter(db, nodes, m);
      AllEdgesFit(db, m);
      var edgeBindings := PersistEdges(View(), m);
      if edgeBindings.Err? {
        return Err(edgeBindings.error);
      }
      return Ok((nodeBindings.value, edgeBindings.value));
    }

    /** The target must be new and every parent stored; then no chain can lead back to a parent. */
    method ValidateDerived(m: Mutation) returns (r: Result<bool, Error>)
      requires EdgesSound(View()) && WellFormed(m) && m.derivation.Some?
      ensures r.Ok? ==> ParentsPresent(View(), m)
      ensures ParentsPresent(View(), m) && DistinctRows(m) ==> r.Ok?
    {
      var derivation := m.derivation.value;
      var ok := ParentEdgesExact(m);
      if !ok {
        return Err(DerivationInvariant);
      }
      if derivation.nodeId in nodes {
        return Err(DerivationInvariant);
      }
      for i := 0 to |derivation.parents|
        invariant forall k :: 0 <= k < i ==> derivation.parents[k] in nodes
      {
        if derivation.parents[i] == derivation.nodeId || derivation.parents[i] !in nodes {
          return Err(DerivationInvariant);
        }
      }
      NoCycleWitness(View(), derivation.nodeId, Elements(derivation.parents));
      var found := FindCycle(edges, derivation.nodeId, Elements(derivation.parents));
      if found {
        return Err(DerivationInvariant);
      }
      return Ok(true);
    }

    /** The decision, the derivation and the manifest, unless one of their unique keys is taken. */
    method RecordAdmission(
      p: Proposal, m: Mutation, input: AdmissionInput, nodeBindings: seq<Binding>, edgeBindings: seq<Binding>)
      returns (r: Result<bool, Error>)
      modifies this`proposals, this`derivations, this`decisions, this`manifests
      ensures r.Ok? <==> Recordable(old(View()), m)
      ensures r.Ok? ==> View() == old(View()).(
                proposals := old(proposals)[m.proposal := Mark(p, Admitted, m.canonicalRef)],
                derivations := DerivationsAfter(old(View()), m),
                decisions := old(decisions)[m.decision := DecisionFor(m, input)],
                manifests := old(manifests)[m.decision :=
                  Manifest(KindOf(m), m.proposal, m.canonicalRef, Admitted, nodeBindings, edgeBindings)])
    {
      if !Recordable(View(), m) {
        return Err(SqlError);
      }
      if m.derivation.Some? {
        derivations := derivations[m.derivation.value.id :=
                                   DerivationRow(m.derivation.value, m.parentEdges, m.proposal)];
      }
      decisions := decisions[m.decision := DecisionFor(m, input)];
      manifests := manifests[m.decision :=
        Manifest(KindOf(m), m.proposal, m.canonicalRef, Admitted, nodeBindings, edgeBindings)];
      proposals := proposals[m.proposal := Mark(p, Admitted, m.canonicalRef)];
      return Ok(true);
    }

    /** The pending branch, inside the transaction. */
    method AdmitFresh(p: Proposal, input: AdmissionInput) returns (r: Result<AdmissionReply, Error>)
      requires EdgesSound(View()) && input.proposal in proposals && p == proposals[input.proposal] && p.outcome.Pending?
      modifies this
      ensures r.Ok? <==> Admissible(codec, old(View()), p, input)
      ensures r.Ok? ==> View() == Apply(codec, old(View()), Admit(input))
      ensures r.Ok? ==> r.value == ReplyFor(Build(codec, p, input), false)
    {
      if p.attempt != SUCCEEDED {
        return Err(StateConflict);
      }
      if p.kind != STATEMENT {
        return Err(UnsupportedAdmission);
      }
      var built := BuildWellFormed(codec, p, input);
      if built.Err? {
        return Err(built.error);
      }
      r := AdmitBuilt(p, built.value, input);
    }

    method AdmitBuilt(p: Proposal, m: Mutation, input: AdmissionInput) returns (r: Result<AdmissionReply, Error>)
      requires EdgesSound(View()) && WellFormed(m)
      modifies this
      ensures r.Ok? <==> ParentsPresent(old(View()), m) && Persistable(old(View()), m) && Recordable(old(View()), m)
      ensures r.Ok? ==> View() == AfterMutation(old(View()), p, m, input) && r.value == ReplyFor(m, false)
    {
      if m.derivation.Some? {
        var derived := ValidateDerived(m);
        if derived.Err? {
          return Err(derived.error);
        }
      }
      ghost var db := View();
      var bindings := PersistMutation(m);
      if bindings.Err? {
        return Err(bindings.error);
      }
      RecordableIgnoresRows(db, m);
      var recorded := RecordAdmission(p, m, input, bindings.value.0, bindings.value.1);
      if recorded.Err? {
        return Err(recorded.error);
      }
      return Ok(ReplyFor(m, false));
    }

    /**
     One call, one transaction: a pending proposal is admitted as the specification says, an
     admitted one is replayed without touching a row, and a failure leaves nothing behind.
     */
    method AdmitPendingProposal(given: AdmissionInput) returns (r: Result<AdmissionReply, Error>)
      requires Inv(View())
      modifies this
      ensures Inv(View())
      ensures r.Ok? <==> Accepts(codec, old(View()), NormalizeInput(given))
      ensures r.Err? ==> View() == old(View())
      ensures r.Ok? ==> var input := NormalizeInput(given); var p := old(proposals)[input.proposal];
                && r.value == ReplyFor(Build(codec, p, input), p.outcome.Admitted?)
                && View() == if p.outcome.Admitted? then old(View()) else Apply(codec, old(View()), Admit(input))
      ensures r.Ok? ==> ReplayHolds(codec, View(), NormalizeInput(given))
      ensures r.Ok? ==> ReplyStored(View(), NormalizeInput(given), r.value)
    {
      var input := NormalizeInput(given);
      if input.proposal == "" {
        return Err(InvalidInput);
      }
      if !(OCCURRENCE_PREFIX <= input.proposal) {
        return Err(InvalidRecordId);
      }
      if input.proposal !in proposals {
        return Err(NotFound);
      }
      var p := proposals[input.proposal];
      assert p.id == input.proposal;
      var saved := View();
      match p.outcome {
        case Pending =>
          r := AdmitFresh(p, input);
          if r.Err? {
            Restore(saved);
          } else {
            StepInv(codec, saved, Admit(input));
            ReplayEstablished(codec, saved, input);
            FreshReply(codec, saved, p, input);
          }
        case Admitted =>
          r := Replay(p, input);
        case _ =>
          return Err(StateConflict);
      }
    }

    method Replay(p: Proposal, input: AdmissionInput) returns (r: Result<AdmissionReply, Error>)
      requires Inv(View()) && input.proposal in proposals && p == proposals[input.proposal] && p.outcome.Admitted?
      ensures r.Ok? <==> ReplayHolds(codec, View(), input)
      ensures r.Ok? ==> r.value == ReplyFor(Build(codec, p, input), true) && ReplyStored(View(), input, r.value)
    {
      var built := BuildMutation(codec, p, input);
      if built.Err? {
        return Err(ReplayConflict);
      }
      var m := built.value;
      BuiltWellFormed(codec, p, input);
      var decided := ValidateReplay(View(), p, m, input);
      if decided.Err? {
        return Err(decided.error);
      }
      var persisted := ValidatePersistedMutation(View(), m);
      if persisted.Err? {
        return Err(persisted.error);
      }
      ReplyIsStored(codec, View(), input, true);
      return Ok(ReplyFor(m, true));
    }

    method WriteRelation(e: Edge, receipt: Receipt)
      modifies this`edges, this`receipts
      ensures View() == AfterAttachment(old(View()), e, receipt)
    {
      edges := edges[e.id := e];
      receipts := receipts[e.id := receipt];
    }

    /** A separately reviewed implements or references edge with its receipt. */
    method AttachReviewedRelation(e: Edge, receipt: Receipt) returns (ok: bool)
      requires Inv(View())
      modifies this`edges, this`receipts
      ensures Inv(View())
      ensures ok <==> Attachable(old(View()), e, receipt)
      ensures View() == if ok then AfterAttachment(old(View()), e, receipt) else old(View())
    {
      ok := Attachable(View(), e, receipt);
      if ok {
        AttachInv(View(), e, receipt);
        WriteRelation(e, receipt);
      }
    }
  }

  function ReplyFor(m: Mutation, replayed: bool): AdmissionReply {
    AdmissionReply(m.proposal, m.canonicalRef, m.decision, m.rawNodes, m.edgeIds,
                   if m.derivation.Some? then Some(m.derivation.value.id) else None,
                   if m.derivation.Some? then m.derivation.value.parents else [], replayed)
  }

  /** What a reply says is what is stored: the admitted proposal, its one decision, and its derivation if any. */
  ghost predicate ReplyStored(db: Db, input: AdmissionInput, r: AdmissionReply) {
    && r.proposal == input.proposal && IsAdmitted(db, r.proposal)
    && db.proposals[r.proposal].canonicalRef == r.canonicalRef
    && r.decision in db.decisions && db.decisions[r.decision].proposal == r.proposal
    && db.decisions[r.decision].canonicalRef == r.canonicalRef
    && db.decisions[r.decision].rawNodes == r.rawNodes && db.decisions[r.decision].edges == r.edges
    && db.decisions[r.decision].decider == input.decider && db.decisions[r.decision].reason == input.reason
    && (forall k :: k in db.derivations && db.derivations[k].record.nodeId == r.canonicalRef ==>
          r.derivation == Some(db.derivations[k].record.id) && r.parents == db.derivations[k].record.parents)
    && (r.derivation.Some? ==>
          exists k :: k in db.derivations && db.derivations[k].record.nodeId == r.canonicalRef)
  }

  /** The reply to a fresh admission, read off the store that it leaves. */
  lemma FreshReply(codec: Codec, db: Db, p: Proposal, input: AdmissionInput)
    requires Inv(db) && input.proposal in db.proposals && p == db.proposals[input.proposal]
    requires Admissible(codec, db, p, input)
    ensures ReplyStored(Apply(codec, db, Admit(input)), input, ReplyFor(Build(codec, p, input), false))
  {
    var db', m := Apply(codec, db, Admit(input)), Build(codec, p, input);
    StepInv(codec, db, Admit(input));
    ReplayEstablished(codec, db, input);
    BuiltWellFormed(codec, p, input);
    BuildIgnoresOutcome(codec, p, input, Admitted, m.canonicalRef);
    assert db'.proposals[input.proposal] == Mark(p, Admitted, m.canonicalRef);
    ReplyIsStored(codec, db', input, false);
  }

  lemma ReplyIsStored(codec: Codec, db: Db, input: AdmissionInput, replayed: bool)
    requires Inv(db) && ReplayHolds(codec, db, input)
    ensures var r := ReplyFor(Build(codec, db.proposals[input.proposal], input), replayed);
            ReplyStored(db, input, r) && r.replayed == replayed
  {
    var p := db.proposals[input.proposal];
    var m := Build(codec, p, input);
    BuiltWellFormed(codec, p, input);
    if m.derivation.Some? {
      var k :| k in db.derivations && db.derivations[k] == DerivationRow(m.derivation.value, m.parentEdges, m.proposal);
      assert OneDerivationEach(db.derivations);
    }
  }

  /** Inserting the nodes first does not change which edges fit. */
  lemma NodesDoNotMatter(db: Db, nodes: map<Id, Node>, m: Mutation)
    ensures var db' := db.(nodes := nodes);
            && EdgeBindings(db', m) == EdgeBindings(db, m)
            && forall i :: 0 <= i < |m.edges| ==> (EdgeFitsAt(db', m, i) <==> EdgeFitsAt(db, m, i))
  {
    forall i | 0 <= i < |m.edges|
      ensures EdgeFitsAt(db.(nodes := nodes), m, i) <==> EdgeFitsAt(db, m, i)
    {
      if m.edges[i].id in db.edges {
        AuthorityIgnoresRows(db, nodes, db.edges, m.edges[i].id, db.edges[m.edges[i].id].origin);
      }
    }
  }

  lemma RecordableIgnoresRows(db: Db, m: Mutation)
    ensures Recordable(RowsAfter(db, m), m) <==> Recordable(db, m)
  {
  }

  /** Each parent's recorded edge is a derived_from edge from that parent into the new node. */
  method ParentEdgesExact(m: Mutation) returns (ok: bool)
    requires WellFormed(m) && m.derivation.Some?
    ensures DistinctRows(m) ==> ok
  {
    var derivation := m.derivation.value;
    var byId := map[];
    for i := 0 to |m.edges|
      invariant byId == Index(m.edges[..i], EdgeKey)
    {
      assert m.edges[..i + 1][..i] == m.edges[..i];
      byId := byId[m.edges[i].id := m.edges[i]];
    }
    assert m.edges[..|m.edges|] == m.edges;
    ParentEdgesFacts(m.edges);
    IndexKeys(m.edges, EdgeKey);
    for i := 0 to |derivation.parents| {
      var parent := derivation.parents[i];
      assert m.edges[i].from == parent && m.edges[i] in m.edges;
      if parent !in m.parentEdges || m.parentEdges[parent] !in byId {
        return false;
      }
      var edge := byId[m.parentEdges[parent]];
      if edge.from != parent || edge.to != derivation.nodeId || edge.relation != DerivedFrom {
        return false;
      }
    }
    return true;
  }
}
