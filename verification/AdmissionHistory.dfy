/** What every reachable store looks like, read off the invariant. */
module AdmissionHistory {
  import opened Outcomes
  import opened Ordering
  import opened Evidence
  import opened AdmissionModel
  import opened AdmissionSpec
  import opened AdmissionInvariant
  import opened AdmissionReplay

  /** Decisions under which some binding calls this node materialized, whoever they belong to. */
  function NodeMaterializers(db: Db, id: Id): set<Id> {
    set d | d in db.manifests && Materializes(db.manifests[d].nodes, id)
  }

  function EdgeMaterializers(db: Db, id: Id): set<Id> {
    set d | d in db.manifests && Materializes(db.manifests[d].edges, id)
  }

  /** The binding that materializes a row is never repeated inside a manifest either. */
  ghost predicate BoundOnce(bindings: seq<Binding>, id: Id) {
    forall i, j :: 0 <= i < |bindings| && 0 <= j < |bindings| && bindings[i].id == id && bindings[j].id == id ==> i == j
  }

  lemma NodeMaterializedByOwner(db: Db, id: Id)
    requires ManifestsSound(db) && id in db.nodes && NodeSound(db, id)
    ensures NodeMaterializers(db, id) == NodeWriters(db, id, db.nodes[id].origin)
  {
    forall d | d in NodeMaterializers(db, id)
      ensures Authoritative(db, d, db.nodes[id].origin)
    {
      assert ManifestSound(db, d);
      var bindings := db.manifests[d].nodes;
      var i :| 0 <= i < |bindings| && bindings[i].id == id && bindings[i].how.Materialized?;
      assert NodeBound(db, db.manifests[d].proposal, bindings[i]);
    }
  }

  lemma EdgeMaterializedByOwner(db: Db, id: Id)
    requires ManifestsSound(db) && id in db.edges && EdgeSound(db, id)
    ensures EdgeMaterializers(db, id) == EdgeWriters(db, id, db.edges[id].origin)
    ensures !Ordinary(db.edges[id].relation) ==> EdgeMaterializers(db, id) == {}
  {
    forall d | d in EdgeMaterializers(db, id)
      ensures Authoritative(db, d, db.edges[id].origin) && Ordinary(db.edges[id].relation)
    {
      assert ManifestSound(db, d);
      var bindings := db.manifests[d].edges;
      var i :| 0 <= i < |bindings| && bindings[i].id == id && bindings[i].how.Materialized?;
      assert EdgeBound(db, db.manifests[d].proposal, bindings[i]);
    }
  }

  /**
   In every reachable store each node has exactly one materialized binding, owned by its
   origin proposal, so the first-materializer count of a stored node is always one.
   */
  lemma OneFirstNodeMaterializer(codec: Codec, steps: seq<Step>, id: Id)
    requires Run(codec, EMPTY, steps) && id in After(codec, EMPTY, steps).nodes
    ensures var db := After(codec, EMPTY, steps);
            && |NodeWriters(db, id, db.nodes[id].origin)| == 1
            && NodeMaterializers(db, id) == NodeWriters(db, id, db.nodes[id].origin)
            && forall d :: d in NodeMaterializers(db, id) ==> BoundOnce(db.manifests[d].nodes, id)
  {
    EmptyInv();
    RunInv(codec, EMPTY, steps);
    var db := After(codec, EMPTY, steps);
    assert NodeSound(db, id);
    NodeMaterializedByOwner(db, id);
    forall d | d in NodeMaterializers(db, id)
      ensures BoundOnce(db.manifests[d].nodes, id)
    {
      assert ManifestSound(db, d);
    }
  }

  lemma EdgeMaterializedOnce(db: Db, id: Id)
    requires Inv(db) && id in db.edges
    ensures EdgeMaterializers(db, id) == EdgeWriters(db, id, db.edges[id].origin)
    ensures if Ordinary(db.edges[id].relation) then |EdgeMaterializers(db, id)| == 1
            else EdgeMaterializers(db, id) == {} && Receipted(db, db.edges[id])
  {
    assert EdgeSound(db, id) && ManifestsSound(db);
    EdgeMaterializedByOwner(db, id);
  }

  /** The same for edges; a separately reviewed relation has a receipt and no binding at all. */
  lemma OneFirstEdgeMaterializer(codec: Codec, steps: seq<Step>, id: Id)
    requires Run(codec, EMPTY, steps) && id in After(codec, EMPTY, steps).edges
    ensures var db := After(codec, EMPTY, steps);
            && EdgeMaterializers(db, id) == EdgeWriters(db, id, db.edges[id].origin)
            && if Ordinary(db.edges[id].relation) then |EdgeMaterializers(db, id)| == 1
               else EdgeMaterializers(db, id) == {} && Receipted(db, db.edges[id])
  {
    EmptyInv();
    RunInv(codec, EMPTY, steps);
    EdgeMaterializedOnce(After(codec, EMPTY, steps), id);
  }

  // ----- reused bindings -----

  /** The manifest was written for this input, which is accepted as a replay in this store. */
  ghost predicate WrittenFor(codec: Codec, db: Db, d: Id, input: AdmissionInput) {
    && d in db.manifests && input.proposal == db.manifests[d].proposal && ReplayHolds(codec, db, input)
    && Build(codec, db.proposals[input.proposal], input).decision == d
  }

  ghost predicate Explained(codec: Codec, db: Db, d: Id) {
    exists input :: WrittenFor(codec, db, d, input)
  }

  ghost predicate AllExplained(codec: Codec, db: Db) {
    forall d :: d in db.manifests ==> Explained(codec, db, d)
  }

  lemma StillExplained(codec: Codec, db: Db, db': Db, d: Id)
    requires Inv(db) && Later(db, db') && d in db.manifests && Explained(codec, db, d)
    ensures Explained(codec, db', d)
  {
    var input :| WrittenFor(codec, db, d, input);
    ReplayStable(codec, db, db', input);
    assert db'.proposals[input.proposal] == db.proposals[input.proposal] && db'.manifests[d] == db.manifests[d];
    assert WrittenFor(codec, db', d, input);
  }

  lemma NewlyExplained(codec: Codec, db: Db, input: AdmissionInput)
    requires Inv(db) && Enabled(codec, db, Admit(input))
    ensures var d := Build(codec, db.proposals[input.proposal], input).decision;
            Explained(codec, Apply(codec, db, Admit(input)), d)
  {
    var p := db.proposals[input.proposal];
    var m, db' := Build(codec, p, input), Apply(codec, db, Admit(input));
    ReplayEstablished(codec, db, input);
    BuiltWellFormed(codec, p, input);
    BuildIgnoresOutcome(codec, p, input, Admitted, m.canonicalRef);
    assert db'.proposals[input.proposal] == Mark(p, Admitted, m.canonicalRef);
    assert WrittenFor(codec, db', m.decision, input);
  }

  lemma NewManifest(codec: Codec, db: Db, step: Step, d: Id)
    requires Enabled(codec, db, step) && d in Apply(codec, db, step).manifests && d !in db.manifests
    ensures step.Admit? && d == Build(codec, db.proposals[step.input.proposal], step.input).decision
  {
  }

  lemma ExplainedLater(codec: Codec, db: Db, db': Db)
    requires Inv(db) && Later(db, db') && AllExplained(codec, db)
    requires forall d :: d in db'.manifests && d !in db.manifests ==> Explained(codec, db', d)
    ensures AllExplained(codec, db')
  {
    forall d | d in db'.manifests && d in db.manifests
      ensures Explained(codec, db', d)
    {
      StillExplained(codec, db, db', d);
    }
  }

  lemma NewExplained(codec: Codec, db: Db, step: Step, d: Id)
    requires Inv(db) && Enabled(codec, db, step)
    requires d in Apply(codec, db, step).manifests && d !in db.manifests
    ensures Explained(codec, Apply(codec, db, step), d)
  {
    NewManifest(codec, db, step, d);
    NewlyExplained(codec, db, step.input);
  }

  lemma ExplainedThroughStep(codec: Codec, db: Db, step: Step)
    requires Inv(db) && Enabled(codec, db, step) && AllExplained(codec, db)
    ensures AllExplained(codec, Apply(codec, db, step))
  {
    StepInv(codec, db, step);
    forall d | d in Apply(codec, db, step).manifests && d !in db.manifests
      ensures Explained(codec, Apply(codec, db, step), d)
    {
      NewExplained(codec, db, step, d);
    }
    ExplainedLater(codec, db, Apply(codec, db, step));
  }

  lemma {:induction false} ExplainedThroughRun(codec: Codec, db: Db, steps: seq<Step>)
    requires Inv(db) && Run(codec, db, steps) && AllExplained(codec, db)
    ensures Inv(After(codec, db, steps)) && AllExplained(codec, After(codec, db, steps))
    decreases |steps|
  {
    if steps != [] {
      StepInv(codec, db, steps[0]);
      ExplainedThroughStep(codec, db, steps[0]);
      ExplainedThroughRun(codec, Apply(codec, db, steps[0]), steps[1..]);
    }
  }

  /** Stored by another admitted proposal that alone materialized it, with the body the reusing proposal builds. */
  ghost predicate ReusedNode(db: Db, m: Mutation, b: Binding, n: Node) {
    && b.id == n.id && b.id in db.nodes && db.nodes[b.id].body == n.body
    && db.nodes[b.id].origin != m.proposal && IsAdmitted(db, db.nodes[b.id].origin)
    && |NodeWriters(db, b.id, db.nodes[b.id].origin)| == 1
  }

  ghost predicate ReusedEdge(db: Db, m: Mutation, b: Binding, e: Edge) {
    && b.id == e.id && b.id in db.edges && db.edges[b.id].SameBody(e)
    && db.edges[b.id].origin != m.proposal && IsAdmitted(db, db.edges[b.id].origin)
    && |EdgeWriters(db, b.id, db.edges[b.id].origin)| == 1
  }

  /**
   In every reachable store each manifest was written for some input of its proposal, binds
   that input's rows one for one, and every row it reuses is another admitted proposal's
   with an identical body. A derivation reuses nothing.
   */
  lemma ReusedBelongsElsewhere(codec: Codec, steps: seq<Step>, d: Id) returns (input: AdmissionInput)
    requires Run(codec, EMPTY, steps) && d in After(codec, EMPTY, steps).manifests
    ensures var db := After(codec, EMPTY, steps);
            && input.proposal == db.manifests[d].proposal && input.proposal in db.proposals
            && Buildable(db.proposals[input.proposal], input)
            && var man, m := db.manifests[d], Build(codec, db.proposals[input.proposal], input);
               && |man.nodes| == |m.nodes| && |man.edges| == |m.edges| && m.proposal == man.proposal
               && (forall i :: 0 <= i < |man.nodes| && man.nodes[i].how.Reused? ==>
                   ReusedNode(db, m, man.nodes[i], m.nodes[i]))
               && (forall i :: 0 <= i < |man.edges| && man.edges[i].how.Reused? ==>
                   ReusedEdge(db, m, man.edges[i], m.edges[i]))
               && (m.derivation.Some? ==>
                     && (forall i :: 0 <= i < |man.nodes| ==> man.nodes[i].how.Materialized?)
                     && (forall i :: 0 <= i < |man.edges| ==> man.edges[i].how.Materialized?))
  {
    EmptyInv();
    assert AllExplained(codec, EMPTY);
    ExplainedThroughRun(codec, EMPTY, steps);
    var db := After(codec, EMPTY, steps);
    assert Explained(codec, db, d);
    input :| WrittenFor(codec, db, d, input);
    ReusedRows(db, Build(codec, db.proposals[input.proposal], input));
  }

  lemma ReusedRows(db: Db, m: Mutation)
    requires NodesSound(db) && EdgesSound(db) && RowsHold(db, m)
    ensures var man := db.manifests[m.decision];
            && (forall i :: 0 <= i < |man.nodes| && man.nodes[i].how.Reused? ==>
                ReusedNode(db, m, man.nodes[i], m.nodes[i]))
            && (forall i :: 0 <= i < |man.edges| && man.edges[i].how.Reused? ==>
                ReusedEdge(db, m, man.edges[i], m.edges[i]))
            && (m.derivation.Some? ==>
                  && (forall i :: 0 <= i < |man.nodes| ==> man.nodes[i].how.Materialized?)
                  && (forall i :: 0 <= i < |man.edges| ==> man.edges[i].how.Materialized?))
  {
    var man := db.manifests[m.decision];
    forall i | 0 <= i < |man.nodes| && man.nodes[i].how.Reused?
      ensures ReusedNode(db, m, man.nodes[i], m.nodes[i])
    {
      assert NodeBindingHolds(db, m, man.nodes[i], i);
      assert NodeSound(db, man.nodes[i].id);
    }
    forall i | 0 <= i < |man.edges|
      ensures man.edges[i].how.Reused? ==> ReusedEdge(db, m, man.edges[i], m.edges[i])
      ensures m.derivation.Some? ==> man.edges[i].how.Materialized?
    {
      assert EdgeBindingHolds(db, m, man.edges[i], i);
      assert EdgeSound(db, man.edges[i].id);
    }
  }

  /** For a pending proposal, reuse is decided by the stored body alone: no other check can fail. */
  lemma ReuseDecidedByBody(db: Db, n: Node, reuse: bool)
    requires NodesSound(db) && n.origin in db.proposals && db.proposals[n.origin].outcome.Pending?
    ensures NodeFits(db, n, reuse) <==> (n.id in db.nodes ==> reuse && db.nodes[n.id].body == n.body)
  {
    if n.id in db.nodes {
      assert NodeSound(db, n.id);
    }
  }

  lemma CollidesWithItselfOnly(edges: map<Id, Edge>, e: Edge)
    requires UniqueTriples(edges) && e.id in edges && edges[e.id].SameBody(e)
    ensures Colliding(edges, e) == {e.id}
  {
    assert forall id :: id in edges && edges[id].SameTriple(e) ==> edges[id].SameTriple(edges[e.id]);
  }

  lemma EdgeReuseDecidedByBody(db: Db, e: Edge, reuse: bool)
    requires EdgesSound(db) && UniqueTriples(db.edges) && Ordinary(e.relation)
    requires e.origin in db.proposals && db.proposals[e.origin].outcome.Pending?
    ensures EdgeFits(db, e, reuse) <==>
            (Colliding(db.edges, e) != {} ==> reuse && e.id in db.edges && db.edges[e.id].SameBody(e))
  {
    if e.id in db.edges && db.edges[e.id].SameBody(e) {
      assert EdgeSound(db, e.id);
      CollidesWithItselfOnly(db.edges, e);
    }
  }

  /** In every reachable store derivations and derived_from edges tell the same acyclic story. */
  lemma DerivationsFaithful(codec: Codec, steps: seq<Step>)
    requires Run(codec, EMPTY, steps)
    ensures var db := After(codec, EMPTY, steps);
            && Acyclic(db.edges)
            && (forall id :: id in db.nodes && DerivationBacked(db.nodes[id].body.kind) ==> HasDerivation(db, id))
            && (forall j, k :: j in db.derivations && k in db.derivations && j != k ==>
                  db.derivations[j].record.nodeId != db.derivations[k].record.nodeId)
            && (forall k :: k in db.derivations ==>
                  Elements(db.derivations[k].record.parents) ==
                  DerivedParents(db.edges, db.derivations[k].record.nodeId))
  {
    EmptyInv();
    RunInv(codec, EMPTY, steps);
    var db := After(codec, EMPTY, steps);
    forall k | k in db.derivations
      ensures Elements(db.derivations[k].record.parents) == DerivedParents(db.edges, db.derivations[k].record.nodeId)
    {
      assert DerivationSound(db, k);
    }
  }

  /** Some derivation chain of at least one edge leads from the start into the targets. */
  ghost predicate CycleWitness(edges: map<Id, Edge>, start: Id, targets: set<Id>) {
    exists path :: DerivedPath(edges, path) && |path| > 1 && path[0] == start && path[|path| - 1] in targets
  }

  /** Once the target is known to be new, the recursive cycle search has nothing to find. */
  lemma NoCycleWitness(db: Db, start: Id, targets: set<Id>)
    requires EdgesSound(db) && start !in db.nodes
    ensures !CycleWitness(db.edges, start, targets)
  {
    EdgesAnchored(db);
    forall path | DerivedPath(db.edges, path) && |path| > 1
      ensures path[0] != start
    {
      assert DerivedStep(db.edges, path[0], path[1]);
    }
  }
}
