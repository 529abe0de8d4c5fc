/**
 Every step keeps the invariant of the stored rows, and what is stored under an admitted
 proposal is never changed by a later step.
 */
module AdmissionInvariant {
  import opened Outcomes
  import opened Ordering
  import opened Evidence
  import opened Identity
  import opened AdmissionModel
  import opened AdmissionSpec

  // ----- what a later store keeps -----

  ghost predicate Kept<K, V>(m: map<K, V>, m': map<K, V>) {
    forall k :: k in m ==> k in m' && m'[k] == m[k]
  }

  ghost predicate Later(db: Db, db': Db) {
    && Kept(db.nodes, db'.nodes) && Kept(db.edges, db'.edges) && Kept(db.derivations, db'.derivations)
    && Kept(db.decisions, db'.decisions) && Kept(db.manifests, db'.manifests) && Kept(db.receipts, db'.receipts)
    && (forall p :: p in db.proposals && !db.proposals[p].outcome.Pending? ==>
          p in db'.proposals && db'.proposals[p] == db.proposals[p])
    && (forall d :: d in db'.manifests && d !in db.manifests ==> !IsAdmitted(db, db'.manifests[d].proposal))
    && (forall id :: id in db'.nodes && id !in db.nodes ==> !IsAdmitted(db, db'.nodes[id].origin))
    && (forall id :: id in db'.edges && id !in db.edges ==> NewEdge(db, db', db'.edges[id]))
    && (forall k :: k in db'.derivations && k !in db.derivations ==> db'.derivations[k].record.nodeId !in db.nodes)
  }

  /** A new edge belongs to a proposal just admitted, or carries an older one under its own receipt. */
  ghost predicate NewEdge(db: Db, db': Db, e: Edge) {
    !IsAdmitted(db, e.origin) || (!Ordinary(e.relation) && Receipted(db', e) && HangsOff(db', e))
  }

  lemma AuthorityKept(db: Db, db': Db, d: Id, owner: Id)
    requires ManifestsSound(db) && Later(db, db') && IsAdmitted(db, owner)
    ensures Authoritative(db', d, owner) <==> Authoritative(db, d, owner)
  {
    if d in db.manifests {
      assert ManifestSound(db, d);
    }
  }

  /** No later step adds or removes a first-materializer authority of an admitted proposal. */
  lemma WritersKept(db: Db, db': Db, id: Id, owner: Id)
    requires ManifestsSound(db) && Later(db, db') && IsAdmitted(db, owner)
    ensures NodeWriters(db', id, owner) == NodeWriters(db, id, owner)
    ensures EdgeWriters(db', id, owner) == EdgeWriters(db, id, owner)
  {
    forall d
      ensures Authoritative(db', d, owner) <==> Authoritative(db, d, owner)
    {
      AuthorityKept(db, db', d, owner);
    }
  }

  lemma NodeSoundKept(db: Db, db': Db, id: Id)
    requires ManifestsSound(db) && Later(db, db') && id in db.nodes && NodeSound(db, id)
    ensures id in db'.nodes && NodeSound(db', id)
  {
    WritersKept(db, db', id, db.nodes[id].origin);
  }

  lemma EdgeSoundKept(db: Db, db': Db, id: Id)
    requires ManifestsSound(db) && Later(db, db') && id in db.edges && EdgeSound(db, id)
    ensures id in db'.edges && EdgeSound(db', id)
  {
    WritersKept(db, db', id, db.edges[id].origin);
  }

  lemma ManifestSoundKept(db: Db, db': Db, d: Id)
    requires ManifestsSound(db) && Later(db, db') && d in db.manifests
    ensures d in db'.manifests && ManifestSound(db', d)
  {
    assert ManifestSound(db, d);
    var man := db.manifests[d];
    AuthorityKept(db, db', d, man.proposal);
    forall i | 0 <= i < |man.nodes|
      ensures NodeBound(db', man.proposal, man.nodes[i])
    {
      assert NodeBound(db, man.proposal, man.nodes[i]);
    }
    forall i | 0 <= i < |man.edges|
      ensures EdgeBound(db', man.proposal, man.edges[i])
    {
      assert EdgeBound(db, man.proposal, man.edges[i]);
    }
  }

  lemma DecisionSoundKept(db: Db, db': Db, d: Id)
    requires DecisionsSound(db) && Later(db, db') && d in db.decisions
    ensures d in db'.decisions && DecisionSound(db', d)
  {
    assert DecisionSound(db, d);
  }

  // ----- rows after an admission -----

  /** Which built row a new id stands for. */
  lemma FindNode(nodes: map<Id, Node>, more: seq<Node>, id: Id) returns (i: nat)
    requires id in NodesWith(nodes, more) && id !in nodes
    ensures i < |more| && more[i].id == id && NodesWith(nodes, more)[id] == more[i]
  {
    IndexKeys(more, NodeKey);
    var n := Index(more, NodeKey)[id];
    i :| 0 <= i < |more| && more[i] == n;
  }

  lemma FindEdge(edges: map<Id, Edge>, more: seq<Edge>, id: Id) returns (i: nat)
    requires id in EdgesWith(edges, more) && id !in edges
    ensures i < |more| && more[i].id == id && EdgesWith(edges, more)[id] == more[i]
  {
    IndexKeys(more, EdgeKey);
    var e := Index(more, EdgeKey)[id];
    i :| 0 <= i < |more| && more[i] == e;
  }

  /** Where a built row ends up: under its own id, unless that id was already stored. */
  lemma PlaceNode(nodes: map<Id, Node>, more: seq<Node>, i: nat)
    requires DistinctKeys(more, NodeKey) && i < |more|
    ensures more[i].id in NodesWith(nodes, more)
    ensures NodesWith(nodes, more)[more[i].id] == if more[i].id in nodes then nodes[more[i].id] else more[i]
  {
    IndexKeys(more, NodeKey);
    assert more[i] in more;
  }

  lemma PlaceEdge(edges: map<Id, Edge>, more: seq<Edge>, i: nat)
    requires DistinctKeys(more, EdgeKey) && i < |more|
    ensures more[i].id in EdgesWith(edges, more)
    ensures EdgesWith(edges, more)[more[i].id] == if more[i].id in edges then edges[more[i].id] else more[i]
  {
    IndexKeys(more, EdgeKey);
    assert more[i] in more;
  }

  ghost predicate OwnRows(m: Mutation) {
    && (forall i :: 0 <= i < |m.nodes| ==> m.nodes[i].origin == m.proposal)
    && (forall i :: 0 <= i < |m.edges| ==> m.edges[i].origin == m.proposal)
  }

  lemma NewNodesOwned(db: Db, m: Mutation)
    requires OwnRows(m)
    ensures Kept(db.nodes, NodesWith(db.nodes, m.nodes))
    ensures forall id :: id in NodesWith(db.nodes, m.nodes) && id !in db.nodes ==>
              NodesWith(db.nodes, m.nodes)[id].origin == m.proposal
  {
    forall id | id in NodesWith(db.nodes, m.nodes) && id !in db.nodes
      ensures NodesWith(db.nodes, m.nodes)[id].origin == m.proposal
    {
      var i := FindNode(db.nodes, m.nodes, id);
    }
  }

  lemma NewEdgesOwned(db: Db, m: Mutation)
    requires OwnRows(m)
    ensures Kept(db.edges, EdgesWith(db.edges, m.edges))
    ensures forall id :: id in EdgesWith(db.edges, m.edges) && id !in db.edges ==>
              EdgesWith(db.edges, m.edges)[id].origin == m.proposal
  {
    forall id | id in EdgesWith(db.edges, m.edges) && id !in db.edges
      ensures EdgesWith(db.edges, m.edges)[id].origin == m.proposal
    {
      var i := FindEdge(db.edges, m.edges, id);
    }
  }

  /** A step that only adds records of one pending proposal. */
  ghost predicate Adds(db: Db, db': Db, owner: Id) {
    && Kept(db.nodes, db'.nodes) && Kept(db.edges, db'.edges) && Kept(db.derivations, db'.derivations)
    && Kept(db.decisions, db'.decisions) && Kept(db.manifests, db'.manifests) && Kept(db.receipts, db'.receipts)
    && (forall d :: d in db'.manifests && d !in db.manifests ==> db'.manifests[d].proposal == owner)
    && (forall id :: id in db'.nodes && id !in db.nodes ==> db'.nodes[id].origin == owner)
    && (forall id :: id in db'.edges && id !in db.edges ==> db'.edges[id].origin == owner)
    && (forall k :: k in db'.derivations && k !in db.derivations ==> db'.derivations[k].record.nodeId !in db.nodes)
  }

  lemma AddsIsLater(db: Db, db': Db, owner: Id, marked: Proposal)
    requires Adds(db, db', owner)
    requires owner in db.proposals && db.proposals[owner].outcome.Pending?
             && db'.proposals == db.proposals[owner := marked]
    ensures Later(db, db')
  {
    assert !IsAdmitted(db, owner);
  }

  lemma AdmissionAdds(db: Db, p: Proposal, m: Mutation, input: AdmissionInput)
    requires OwnRows(m) && Recordable(db, m)
    requires m.derivation.Some? ==> m.derivation.value.nodeId !in db.nodes
    ensures Adds(db, AfterMutation(db, p, m, input), m.proposal)
  {
    NewNodesOwned(db, m);
    NewEdgesOwned(db, m);
  }

  // ----- the new rows are sound -----

  /** The only decision that can vouch for a row of the new proposal is the new one. */
  lemma OneWriter(db: Db, p: Proposal, m: Mutation, input: AdmissionInput, id: Id)
    requires Recordable(db, m)
    ensures var db' := AfterMutation(db, p, m, input);
            && Authoritative(db', m.decision, m.proposal)
            && (Materializes(NodeBindings(db, m), id) ==> NodeWriters(db', id, m.proposal) == {m.decision})
            && (Materializes(EdgeBindings(db, m), id) ==> EdgeWriters(db', id, m.proposal) == {m.decision})
  {
    var db' := AfterMutation(db, p, m, input);
    assert db'.manifests[m.decision] == ManifestFor(db, m);
    forall d | d in db'.manifests && Authoritative(db', d, m.proposal)
      ensures d == m.decision
    {
      assert d in db.manifests || d == m.decision;
    }
  }

  lemma NewNodeSound(db: Db, p: Proposal, m: Mutation, input: AdmissionInput, id: Id)
    requires OwnRows(m) && Recordable(db, m)
    requires id in NodesWith(db.nodes, m.nodes) && id !in db.nodes
    ensures NodeSound(AfterMutation(db, p, m, input), id)
  {
    var i := FindNode(db.nodes, m.nodes, id);
    assert NodeBindings(db, m)[i].id == id && NodeBindings(db, m)[i].how.Materialized?;
    OneWriter(db, p, m, input, id);
    assert AfterMutation(db, p, m, input).nodes[id] == m.nodes[i];
  }

  lemma NewEdgeEnds(db: Db, m: Mutation, i: nat)
    requires DistinctRows(m) && WellFormed(m) && ParentsPresent(db, m) && i < |m.edges|
    ensures m.edges[i].from in NodesWith(db.nodes, m.nodes) && m.edges[i].to in NodesWith(db.nodes, m.nodes)
    ensures Ordinary(m.edges[i].relation)
  {
    PlaceNode(db.nodes, m.nodes, 0);
    if m.derivation.None? {
      PlaceNode(db.nodes, m.nodes, i + 1);
      assert m.edges[i].from == m.nodes[i + 1].id;
    } else {
      assert m.derivation.value.parents[i] in db.nodes;
    }
  }

  lemma NewEdgeSound(db: Db, p: Proposal, m: Mutation, input: AdmissionInput, id: Id)
    requires DistinctRows(m) && OwnRows(m) && Recordable(db, m) && WellFormed(m) && ParentsPresent(db, m)
    requires id in EdgesWith(db.edges, m.edges) && id !in db.edges
    ensures EdgeSound(AfterMutation(db, p, m, input), id)
  {
    var i := FindEdge(db.edges, m.edges, id);
    NewEdgeEnds(db, m, i);
    assert EdgeBindings(db, m)[i].id == id && EdgeBindings(db, m)[i].how.Materialized?;
    OneWriter(db, p, m, input, id);
    assert AfterMutation(db, p, m, input).edges[id] == m.edges[i];
  }

  ghost predicate EdgesFit(db: Db, m: Mutation) {
    forall i :: 0 <= i < |m.edges| ==> EdgeFits(db, m.edges[i], m.derivation.None?)
  }

  lemma TriplesStayUnique(db: Db, m: Mutation)
    requires UniqueTriples(db.edges) && DistinctRows(m) && EdgesFit(db, m)
    ensures UniqueTriples(EdgesWith(db.edges, m.edges))
  {
    var edges := EdgesWith(db.edges, m.edges);
    forall a, b | a in edges && b in edges && edges[a].SameTriple(edges[b])
      ensures a == b
    {
      if a in db.edges && b !in db.edges {
        FreshTriple(db, m, b, a);
      } else if b in db.edges && a !in db.edges {
        FreshTriple(db, m, a, b);
      } else if a !in db.edges {
        FreshPair(db, m, a, b);
      }
    }
  }

  lemma FreshPair(db: Db, m: Mutation, a: Id, b: Id)
    requires DistinctRows(m)
    requires a in EdgesWith(db.edges, m.edges) && a !in db.edges && b in EdgesWith(db.edges, m.edges) && b !in db.edges
    requires EdgesWith(db.edges, m.edges)[a].SameTriple(EdgesWith(db.edges, m.edges)[b])
    ensures a == b
  {
    var i := FindEdge(db.edges, m.edges, a);
    var j := FindEdge(db.edges, m.edges, b);
    assert TripleKey(m.edges[i]) == TripleKey(m.edges[j]);
  }

  lemma FreshTriple(db: Db, m: Mutation, a: Id, b: Id)
    requires DistinctRows(m) && EdgesFit(db, m) && a in EdgesWith(db.edges, m.edges) && a !in db.edges && b in db.edges
    ensures !EdgesWith(db.edges, m.edges)[a].SameTriple(db.edges[b])
    ensures !db.edges[b].SameTriple(EdgesWith(db.edges, m.edges)[a])
  {
    var i := FindEdge(db.edges, m.edges, a);
    assert EdgeFits(db, m.edges[i], m.derivation.None?);
    assert b !in Colliding(db.edges, m.edges[i]);
  }

  lemma BindingIdsDistinct(db: Db, m: Mutation)
    requires DistinctRows(m)
    ensures forall i, j :: 0 <= i < j < |m.nodes| ==> NodeBindings(db, m)[i].id != NodeBindings(db, m)[j].id
    ensures forall i, j :: 0 <= i < j < |m.edges| ==> EdgeBindings(db, m)[i].id != EdgeBindings(db, m)[j].id
  {
    forall i, j | 0 <= i < j < |m.nodes|
      ensures NodeBindings(db, m)[i].id != NodeBindings(db, m)[j].id
    {
      assert NodeKey(m.nodes[i]) != NodeKey(m.nodes[j]);
    }
    forall i, j | 0 <= i < j < |m.edges|
      ensures EdgeBindings(db, m)[i].id != EdgeBindings(db, m)[j].id
    {
      assert EdgeKey(m.edges[i]) != EdgeKey(m.edges[j]);
    }
  }

  lemma NewNodeBound(db: Db, m: Mutation, i: nat)
    requires DistinctRows(m) && OwnRows(m) && i < |m.nodes| && NodeFits(db, m.nodes[i], m.derivation.None?)
    ensures NodeBound(RowsAfter(db, m), m.proposal, NodeBindings(db, m)[i])
  {
    PlaceNode(db.nodes, m.nodes, i);
  }

  lemma NewEdgeBound(db: Db, m: Mutation, i: nat)
    requires DistinctRows(m) && OwnRows(m) && WellFormed(m) && ParentsPresent(db, m) && i < |m.edges|
    requires EdgeFits(db, m.edges[i], m.derivation.None?)
    ensures EdgeBound(RowsAfter(db, m), m.proposal, EdgeBindings(db, m)[i])
  {
    PlaceEdge(db.edges, m.edges, i);
    NewEdgeEnds(db, m, i);
    if m.edges[i].id in db.edges {
      assert m.edges[i].id in Colliding(db.edges, m.edges[i]);
    }
  }

  lemma NewManifestSound(db: Db, p: Proposal, m: Mutation, input: AdmissionInput)
    requires OwnRows(m) && WellFormed(m) && ParentsPresent(db, m) && Persistable(db, m) && Recordable(db, m)
    ensures ManifestSound(AfterMutation(db, p, m, input), m.decision)
  {
    var db' := AfterMutation(db, p, m, input);
    var man := db'.manifests[m.decision];
    assert man == ManifestFor(db, m);
    BindingIdsDistinct(db, m);
    forall i | 0 <= i < |man.nodes|
      ensures NodeBound(db', man.proposal, man.nodes[i])
    {
      NewNodeBound(db, m, i);
    }
    forall i | 0 <= i < |man.edges|
      ensures EdgeBound(db', man.proposal, man.edges[i])
    {
      NewEdgeBound(db, m, i);
    }
    OneWriter(db, p, m, input, "");
  }

  // ----- derivations -----

  ghost predicate Anchored(nodes: map<Id, Node>, edges: map<Id, Edge>) {
    forall id :: id in edges ==> edges[id].from in nodes && edges[id].to in nodes
  }

  lemma EdgesAnchored(db: Db)
    requires EdgesSound(db)
    ensures Anchored(db.nodes, db.edges)
  {
    forall id | id in db.edges
      ensures db.edges[id].from in db.nodes && db.edges[id].to in db.nodes
    {
      assert EdgeSound(db, id);
    }
  }

  /** Every derived_from edge that is new goes from a stored node to one new node. */
  ghost predicate OnlyInto(nodes: map<Id, Node>, edges: map<Id, Edge>, edges': map<Id, Edge>, target: Id) {
    && Kept(edges, edges')
    && forall id :: id in edges' && id !in edges && edges'[id].relation == DerivedFrom ==>
         edges'[id].to == target && edges'[id].from in nodes
  }

  ghost predicate NoNewDerived(edges: map<Id, Edge>, edges': map<Id, Edge>) {
    Kept(edges, edges') && forall id :: id in edges' && id !in edges ==> edges'[id].relation != DerivedFrom
  }

  lemma AcyclicInto(nodes: map<Id, Node>, edges: map<Id, Edge>, edges': map<Id, Edge>, target: Id)
    requires Anchored(nodes, edges) && Acyclic(edges) && OnlyInto(nodes, edges, edges', target) && target !in nodes
    ensures Acyclic(edges')
  {
    forall path | DerivedPath(edges', path) && |path| > 1
      ensures path[0] != path[|path| - 1]
    {
      if path[0] == path[|path| - 1] {
        forall i | 0 <= i < |path| - 1
          ensures DerivedStep(edges, path[i], path[i + 1])
        {
          NoStepInto(nodes, edges, edges', target, path, i);
        }
        assert DerivedPath(edges, path);
      }
    }
  }

  /** On a cycle every node is left again, and the new node never is. */
  lemma NoStepInto(nodes: map<Id, Node>, edges: map<Id, Edge>, edges': map<Id, Edge>, target: Id, path: seq<Id>, i: nat)
    requires Anchored(nodes, edges) && OnlyInto(nodes, edges, edges', target) && target !in nodes
    requires DerivedPath(edges', path) && |path| > 1 && path[0] == path[|path| - 1] && i < |path| - 1
    ensures DerivedStep(edges, path[i], path[i + 1])
  {
    var next := if i + 1 < |path| - 1 then i + 1 else 0;
    assert path[next] == path[i + 1];
    assert DerivedStep(edges', path[next], path[next + 1]);
    var out :| out in edges' && edges'[out].relation == DerivedFrom && edges'[out].from == path[next]
               && edges'[out].to == path[next + 1];
    assert path[i + 1] in nodes;
    assert DerivedStep(edges', path[i], path[i + 1]);
    var id :| id in edges' && edges'[id].relation == DerivedFrom && edges'[id].from == path[i]
              && edges'[id].to == path[i + 1];
    assert id in edges && edges[id] == edges'[id];
  }

  lemma AcyclicSame(edges: map<Id, Edge>, edges': map<Id, Edge>)
    requires Acyclic(edges) && NoNewDerived(edges, edges')
    ensures Acyclic(edges')
  {
    forall path | DerivedPath(edges', path) && |path| > 1
      ensures path[0] != path[|path| - 1]
    {
      forall i | 0 <= i < |path| - 1
        ensures DerivedStep(edges, path[i], path[i + 1])
      {
        assert DerivedStep(edges', path[i], path[i + 1]);
      }
      assert DerivedPath(edges, path);
    }
  }

  lemma SameParents(edges: map<Id, Edge>, edges': map<Id, Edge>, node: Id)
    requires Kept(edges, edges')
    requires forall id :: id in edges' && id !in edges ==> edges'[id].relation != DerivedFrom || edges'[id].to != node
    ensures DerivedParents(edges', node) == DerivedParents(edges, node)
  {
    forall x | x in DerivedParents(edges, node)
      ensures x in DerivedParents(edges', node)
    {
      var id :| id in edges && edges[id].relation == DerivedFrom && edges[id].to == node && edges[id].from == x;
      assert id in edges' && edges'[id] == edges[id];
    }
    forall x | x in DerivedParents(edges', node)
      ensures x in DerivedParents(edges, node)
    {
      var id :| id in edges' && edges'[id].relation == DerivedFrom && edges'[id].to == node && edges'[id].from == x;
      assert id in edges;
    }
  }

  lemma DerivationSoundKept(db: Db, db': Db, k: Id)
    requires k in db.derivations && DerivationSound(db, k) && Kept(db.nodes, db'.nodes)
             && Kept(db.derivations, db'.derivations)
    requires DerivedParents(db'.edges, db.derivations[k].record.nodeId) ==
             DerivedParents(db.edges, db.derivations[k].record.nodeId)
    ensures DerivationSound(db', k)
  {
  }

  lemma DerivedNodeKept(db: Db, db': Db, id: Id)
    requires DerivedNodesHaveOne(db) && Kept(db.derivations, db'.derivations)
    requires id in db.nodes && DerivationBacked(db.nodes[id].body.kind)
    ensures HasDerivation(db', id)
  {
    assert HasDerivation(db, id);
    var k :| k in db.derivations && db.derivations[k].record.nodeId == id;
    assert k in db'.derivations && db'.derivations[k].record.nodeId == id;
  }

  /** Steps that add no derivation, no derived node and no derived_from edge. */
  lemma DerivationsUntouched(db: Db, db': Db)
    requires DerivationsSound(db) && Kept(db.nodes, db'.nodes) && NoNewDerived(db.edges, db'.edges)
    requires db'.derivations == db.derivations
    requires forall id :: id in db'.nodes && id !in db.nodes ==> !DerivationBacked(db'.nodes[id].body.kind)
    ensures DerivationsSound(db')
  {
    AcyclicSame(db.edges, db'.edges);
    forall k | k in db'.derivations
      ensures DerivationSound(db', k)
    {
      assert DerivationSound(db, k);
      SameParents(db.edges, db'.edges, db.derivations[k].record.nodeId);
      DerivationSoundKept(db, db', k);
    }
    forall id | id in db'.nodes && DerivationBacked(db'.nodes[id].body.kind)
      ensures HasDerivation(db', id)
    {
      DerivedNodeKept(db, db', id);
    }
    assert DerivedEdgesEnterDerived(db'.nodes, db'.edges);
  }

  /** The one new derivation names the one new node and exactly its incoming edges. */
  ghost predicate OneDerivation(db: Db, db': Db, row: DerivationRow) {
    var target, k := row.record.nodeId, row.record.id;
    && target !in db.nodes && OnlyInto(db.nodes, db.edges, db'.edges, target) && Kept(db.nodes, db'.nodes)
    && target in db'.nodes && DerivationBacked(db'.nodes[target].body.kind) && db'.nodes[target].origin == row.origin
    && (forall id :: id in db'.nodes && id !in db.nodes ==> id == target)
    && k !in db.derivations && db'.derivations == db.derivations[k := row]
    && Elements(row.record.parents) == DerivedParents(db'.edges, target)
  }

  lemma OldDerivationKept(db: Db, db': Db, row: DerivationRow, k: Id)
    requires OneDerivation(db, db', row) && k in db.derivations && DerivationSound(db, k)
    ensures DerivationSound(db', k) && db'.derivations[k].record.nodeId != row.record.nodeId
  {
    SameParents(db.edges, db'.edges, db.derivations[k].record.nodeId);
    DerivationSoundKept(db, db', k);
  }

  lemma DerivationsEachSound(db: Db, db': Db, row: DerivationRow)
    requires EachDerivationSound(db) && OneDerivationEach(db.derivations) && OneDerivation(db, db', row)
    ensures EachDerivationSound(db') && OneDerivationEach(db'.derivations)
  {
    forall k | k in db.derivations
      ensures DerivationSound(db', k) && db'.derivations[k].record.nodeId != row.record.nodeId
    {
      assert DerivationSound(db, k);
      OldDerivationKept(db, db', row, k);
    }
    assert DerivationSound(db', row.record.id);
  }

  lemma DerivationAdded(db: Db, db': Db, row: DerivationRow)
    requires DerivationsSound(db) && Anchored(db.nodes, db.edges) && OneDerivation(db, db', row)
    ensures DerivationsSound(db')
  {
    AcyclicInto(db.nodes, db.edges, db'.edges, row.record.nodeId);
    DerivationsEachSound(db, db', row);
    forall id | id in db'.nodes && DerivationBacked(db'.nodes[id].body.kind)
      ensures HasDerivation(db', id)
    {
      if id == row.record.nodeId {
        assert row.record.id in db'.derivations && db'.derivations[row.record.id].record.nodeId == id;
      } else {
        DerivedNodeKept(db, db', id);
      }
    }
    assert DerivedEdgesEnterDerived(db'.nodes, db'.edges);
  }

  lemma FreshEdge(db: Db, m: Mutation, i: nat)
    requires EdgesFit(db, m) && DistinctRows(m) && m.derivation.Some? && i < |m.edges|
    ensures m.edges[i].id !in db.edges
    ensures var edges := EdgesWith(db.edges, m.edges); m.edges[i].id in edges && edges[m.edges[i].id] == m.edges[i]
  {
    assert EdgeFits(db, m.edges[i], false);
    assert m.edges[i].id !in Colliding(db.edges, m.edges[i]);
    PlaceEdge(db.edges, m.edges, i);
  }

  /** A built derivation's edges are all new and are its parents' edges into the new node. */
  lemma DerivedRowsNew(db: Db, m: Mutation)
    requires Anchored(db.nodes, db.edges) && WellFormed(m) && ParentsPresent(db, m) && m.derivation.Some?
    requires EdgesFit(db, m) && DistinctRows(m)
    ensures OnlyInto(db.nodes, db.edges, EdgesWith(db.edges, m.edges), m.canonicalRef)
    ensures Elements(m.derivation.value.parents) == DerivedParents(EdgesWith(db.edges, m.edges), m.canonicalRef)
  {
    var edges, target, parents := EdgesWith(db.edges, m.edges), m.canonicalRef, m.derivation.value.parents;
    forall id | id in edges && id !in db.edges
      ensures edges[id].relation == DerivedFrom && edges[id].to == target && edges[id].from in parents
              && edges[id].from in db.nodes
    {
      var i := FindEdge(db.edges, m.edges, id);
      assert m.edges[i].from == parents[i];
    }
    ParentsAreSources(db, m);
  }

  lemma ParentsAreSources(db: Db, m: Mutation)
    requires Anchored(db.nodes, db.edges) && WellFormed(m) && ParentsPresent(db, m) && m.derivation.Some?
    requires EdgesFit(db, m) && DistinctRows(m)
    ensures Elements(m.derivation.value.parents) == DerivedParents(EdgesWith(db.edges, m.edges), m.canonicalRef)
  {
    var edges, target, parents := EdgesWith(db.edges, m.edges), m.canonicalRef, m.derivation.value.parents;
    forall x | x in parents
      ensures x in DerivedParents(edges, target)
    {
      var i :| 0 <= i < |parents| && parents[i] == x;
      FreshEdge(db, m, i);
      assert m.edges[i].from == parents[i];
    }
    forall x | x in DerivedParents(edges, target)
      ensures x in parents
    {
      var id :| id in edges && edges[id].relation == DerivedFrom && edges[id].to == target && edges[id].from == x;
      assert id !in db.edges;
      var i := FindEdge(db.edges, m.edges, id);
      assert m.edges[i].from == parents[i];
    }
  }

  lemma SourceRowsPlain(db: Db, m: Mutation)
    requires WellFormed(m) && m.derivation.None?
    ensures NoNewDerived(db.edges, EdgesWith(db.edges, m.edges))
    ensures forall id :: id in NodesWith(db.nodes, m.nodes) && id !in db.nodes ==>
              !DerivationBacked(NodesWith(db.nodes, m.nodes)[id].body.kind)
  {
    forall id | id in EdgesWith(db.edges, m.edges) && id !in db.edges
      ensures EdgesWith(db.edges, m.edges)[id].relation != DerivedFrom
    {
      var i := FindEdge(db.edges, m.edges, id);
    }
    forall id | id in NodesWith(db.nodes, m.nodes) && id !in db.nodes
      ensures !DerivationBacked(NodesWith(db.nodes, m.nodes)[id].body.kind)
    {
      var i := FindNode(db.nodes, m.nodes, id);
    }
  }

  lemma OneNewNode(db: Db, m: Mutation)
    requires WellFormed(m) && ParentsPresent(db, m) && m.derivation.Some? && DistinctRows(m)
    ensures forall id :: id in NodesWith(db.nodes, m.nodes) && id !in db.nodes ==> id == m.canonicalRef
    ensures m.canonicalRef in NodesWith(db.nodes, m.nodes) && NodesWith(db.nodes, m.nodes)[m.canonicalRef] == m.nodes[0]
  {
    PlaceNode(db.nodes, m.nodes, 0);
    forall id | id in NodesWith(db.nodes, m.nodes) && id !in db.nodes
      ensures id == m.canonicalRef
    {
      var i := FindNode(db.nodes, m.nodes, id);
    }
  }

  lemma DerivedAdmission(db: Db, p: Proposal, m: Mutation, input: AdmissionInput)
    requires DerivationsSound(db) && Anchored(db.nodes, db.edges) && WellFormed(m) && ParentsPresent(db, m)
    requires EdgesFit(db, m) && DistinctRows(m) && Recordable(db, m) && m.derivation.Some?
    ensures DerivationsSound(AfterMutation(db, p, m, input))
  {
    DerivedRowsNew(db, m);
    OneNewNode(db, m);
    DerivationAdded(db, AfterMutation(db, p, m, input), DerivationRow(m.derivation.value, m.parentEdges, m.proposal));
  }

  lemma SourceAdmission(db: Db, p: Proposal, m: Mutation, input: AdmissionInput)
    requires DerivationsSound(db) && WellFormed(m) && m.derivation.None?
    ensures DerivationsSound(AfterMutation(db, p, m, input))
  {
    SourceRowsPlain(db, m);
    DerivationsUntouched(db, AfterMutation(db, p, m, input));
  }

  // ----- the steps -----

  /** What a step must show of the records it adds. */
  ghost predicate NewSound(db: Db, db': Db) {
    && ProposalsKeyed(db'.proposals)
    && (forall id :: id in db'.nodes && id !in db.nodes ==> NodeSound(db', id))
    && (forall id :: id in db'.edges && id !in db.edges ==> EdgeSound(db', id))
    && UniqueTriples(db'.edges)
    && (forall d :: d in db'.manifests && d !in db.manifests ==> ManifestSound(db', d))
    && (forall d :: d in db'.decisions && d !in db.decisions ==> DecisionSound(db', d))
    && OneDecisionEach(db'.decisions) && DerivationsSound(db')
  }

  lemma InvExtends(db: Db, db': Db)
    requires Inv(db) && Later(db, db') && NewSound(db, db')
    ensures Inv(db')
  {
    forall id | id in db'.nodes
      ensures NodeSound(db', id)
    {
      if id in db.nodes {
        NodeSoundKept(db, db', id);
      }
    }
    forall id | id in db'.edges
      ensures EdgeSound(db', id)
    {
      if id in db.edges {
        EdgeSoundKept(db, db', id);
      }
    }
    forall d | d in db'.manifests
      ensures ManifestSound(db', d)
    {
      if d in db.manifests {
        ManifestSoundKept(db, db', d);
      }
    }
    forall d | d in db'.decisions
      ensures DecisionSound(db', d)
    {
      if d in db.decisions {
        DecisionSoundKept(db, db', d);
      }
    }
  }

  lemma MutationNewSound(db: Db, p: Proposal, m: Mutation, input: AdmissionInput)
    requires ProposalsKeyed(db.proposals) && UniqueTriples(db.edges) && OneDecisionEach(db.decisions)
             && DerivationsSound(db)
    requires Anchored(db.nodes, db.edges) && m.proposal == p.id && OwnRows(m)
    requires WellFormed(m) && ParentsPresent(db, m) && Persistable(db, m) && Recordable(db, m)
    ensures NewSound(db, AfterMutation(db, p, m, input))
  {
    var db' := AfterMutation(db, p, m, input);
    assert EdgesFit(db, m);
    if m.derivation.Some? {
      DerivedAdmission(db, p, m, input);
    } else {
      SourceAdmission(db, p, m, input);
    }
    TriplesStayUnique(db, m);
    NewManifestSound(db, p, m, input);
    NewRowsSound(db, p, m, input);
    NewDecisionSound(db, p, m, input);
  }

  lemma NewRowsSound(db: Db, p: Proposal, m: Mutation, input: AdmissionInput)
    requires OwnRows(m) && WellFormed(m) && ParentsPresent(db, m) && Persistable(db, m) && Recordable(db, m)
    ensures var db' := AfterMutation(db, p, m, input);
            && (forall id :: id in db'.nodes && id !in db.nodes ==> NodeSound(db', id))
            && (forall id :: id in db'.edges && id !in db.edges ==> EdgeSound(db', id))
  {
    var db' := AfterMutation(db, p, m, input);
    forall id | id in db'.nodes && id !in db.nodes
      ensures NodeSound(db', id)
    {
      NewNodeSound(db, p, m, input, id);
    }
    forall id | id in db'.edges && id !in db.edges
      ensures EdgeSound(db', id)
    {
      NewEdgeSound(db, p, m, input, id);
    }
  }

  lemma NewDecisionSound(db: Db, p: Proposal, m: Mutation, input: AdmissionInput)
    requires ProposalsKeyed(db.proposals) && OneDecisionEach(db.decisions) && Recordable(db, m) && m.proposal == p.id
    ensures var db' := AfterMutation(db, p, m, input);
            ProposalsKeyed(db'.proposals) && OneDecisionEach(db'.decisions) && DecisionSound(db', m.decision)
  {
  }

  lemma MutationInv(db: Db, p: Proposal, m: Mutation, input: AdmissionInput)
    requires Inv(db) && p.id in db.proposals && db.proposals[p.id] == p && p.outcome.Pending? && m.proposal == p.id
    requires WellFormed(m) && ParentsPresent(db, m) && Persistable(db, m) && Recordable(db, m)
    ensures Later(db, AfterMutation(db, p, m, input))
    ensures Inv(AfterMutation(db, p, m, input))
  {
    assert OwnRows(m);
    AdmissionAdds(db, p, m, input);
    AddsIsLater(db, AfterMutation(db, p, m, input), m.proposal, Mark(p, Admitted, m.canonicalRef));
    EdgesAnchored(db);
    MutationNewSound(db, p, m, input);
    InvExtends(db, AfterMutation(db, p, m, input));
  }

  lemma AdmitInv(codec: Codec, db: Db, p: Proposal, input: AdmissionInput)
    requires Inv(db) && p.id in db.proposals && db.proposals[p.id] == p && Admissible(codec, db, p, input)
    ensures Later(db, AfterMutation(db, p, Build(codec, p, input), input))
    ensures Inv(AfterMutation(db, p, Build(codec, p, input), input))
  {
    BuiltWellFormed(codec, p, input);
    MutationInv(db, p, Build(codec, p, input), input);
  }

  /** Steps that change proposals and decisions only. */
  lemma RecordsInv(db: Db, db': Db)
    requires Inv(db) && Later(db, db')
    requires db'.nodes == db.nodes && db'.edges == db.edges && db'.derivations == db.derivations
             && db'.manifests == db.manifests
    requires ProposalsKeyed(db'.proposals) && OneDecisionEach(db'.decisions)
    requires forall d :: d in db'.decisions && d !in db.decisions ==> DecisionSound(db', d)
    ensures Inv(db')
  {
    DerivationsUntouched(db, db');
    InvExtends(db, db');
  }

  lemma SubmitInv(db: Db, p: Proposal)
    requires Inv(db) && p.id !in db.proposals && p.outcome.Pending?
    ensures var db' := db.(proposals := db.proposals[p.id := p]); Later(db, db') && Inv(db')
  {
    RecordsInv(db, db.(proposals := db.proposals[p.id := p]));
  }

  lemma PendingUndecided(db: Db, p: Id)
    requires DecisionsSound(db) && p in db.proposals && db.proposals[p].outcome.Pending?
    ensures forall d :: d in db.decisions ==> db.decisions[d].proposal != p
  {
    forall d | d in db.decisions
      ensures db.decisions[d].proposal != p
    {
      assert DecisionSound(db, d);
    }
  }

  lemma DisposeLater(db: Db, p: Id, outcome: Outcome, d: Id, decision: Decision)
    requires p in db.proposals && db.proposals[p].outcome.Pending? && d !in db.decisions
    ensures Later(db, db.(proposals := db.proposals[p := Mark(db.proposals[p], outcome, "")],
                          decisions := db.decisions[d := decision]))
  {
  }

  lemma DisposeInv(db: Db, p: Id, outcome: Outcome, d: Id, decision: Decision)
    requires Inv(db) && p in db.proposals && db.proposals[p].outcome.Pending?
             && (outcome.Rejected? || outcome.AuditOnly?)
    requires d !in db.decisions && decision.proposal == p && decision.outcome == outcome
    ensures var db' := db.(proposals := db.proposals[p := Mark(db.proposals[p], outcome, "")],
                           decisions := db.decisions[d := decision]);
            Later(db, db') && Inv(db')
  {
    PendingUndecided(db, p);
    DisposeLater(db, p, outcome, d, decision);
    RecordsInv(db, db.(proposals := db.proposals[p := Mark(db.proposals[p], outcome, "")],
                       decisions := db.decisions[d := decision]));
  }

  lemma AttachmentFresh(db: Db, e: Edge, r: Receipt)
    requires Attachable(db, e, r) && UniqueTriples(db.edges)
    ensures e.id !in db.edges && UniqueTriples(db.edges[e.id := e])
  {
    assert e.id !in Colliding(db.edges, e);
    forall id | id in db.edges
      ensures !db.edges[id].SameTriple(e) && !e.SameTriple(db.edges[id])
    {
      assert id !in Colliding(db.edges, e);
    }
  }

  lemma AttachmentLater(db: Db, e: Edge, r: Receipt)
    requires Attachable(db, e, r) && e.id !in db.edges
    ensures Later(db, AfterAttachment(db, e, r)) && EdgeSound(AfterAttachment(db, e, r), e.id)
  {
  }

  lemma AttachInv(db: Db, e: Edge, r: Receipt)
    requires Inv(db) && Attachable(db, e, r)
    ensures Later(db, AfterAttachment(db, e, r)) && Inv(AfterAttachment(db, e, r))
  {
    AttachmentFresh(db, e, r);
    AttachmentLater(db, e, r);
    DerivationsUntouched(db, AfterAttachment(db, e, r));
    InvExtends(db, AfterAttachment(db, e, r));
  }

  lemma StepInv(codec: Codec, db: Db, step: Step)
    requires Inv(db) && Enabled(codec, db, step)
    ensures Later(db, Apply(codec, db, step)) && Inv(Apply(codec, db, step))
  {
    match step
    case Submit(p) => SubmitInv(db, p);
    case Admit(input) => AdmitInv(codec, db, db.proposals[input.proposal], input);
    case Dispose(proposal, outcome, decision, decider, reason) =>
      DisposeInv(db, proposal, outcome, decision, Decision(proposal, outcome, "", [], [], decider, reason));
    case Attach(e, r) => AttachInv(db, e, r);
  }

  lemma EmptyInv()
    ensures Inv(EMPTY)
  {
    forall path | DerivedPath(EMPTY.edges, path) && |path| > 1
      ensures !DerivedStep(EMPTY.edges, path[0], path[1])
    {
    }
  }
}
