/**
 Whole runs: an admitted input can be replayed for ever, every ordinary row has one first
 materializer, and the derivation graph stays acyclic.
 */
module AdmissionReplay {
  import opened Outcomes
  import opened Ordering
  import opened Evidence
  import opened Identity
  import opened AdmissionModel
  import opened AdmissionSpec
  import opened AdmissionInvariant

  // ----- the replay of a fresh admission -----

  /** What is built does not depend on the proposal's later outcome. */
  lemma BuildIgnoresOutcome(codec: Codec, p: Proposal, input: AdmissionInput, outcome: Outcome, ref: Id)
    requires Buildable(p, input)
    ensures Buildable(Mark(p, outcome, ref), input)
    ensures Build(codec, Mark(p, outcome, ref), input) == Build(codec, p, input)
  {
    var q := Mark(p, outcome, ref);
    if input.candidate.None? && input.derivation.None? {
      assert ClaimNode(codec, q) == ClaimNode(codec, p);
      assert RawNodes(codec, q) == RawNodes(codec, p);
      assert SupportsEdges(codec, q) == SupportsEdges(codec, p);
    } else {
      var d := if input.candidate.Some? then input.candidate.value else input.derivation.value;
      var kind := if input.candidate.Some? then Candidate else DerivedClaim;
      var parents := SortBy(Trimmed(d.parents), SelfKey);
      assert DerivedNode(codec, q, kind, parents, d) == DerivedNode(codec, p, kind, parents, d);
      var id := DerivedNode(codec, p, kind, parents, d).id;
      assert DerivedEdges(codec, q, id, parents, d) == DerivedEdges(codec, p, id, parents, d);
    }
  }

  lemma FreshNodeBinding(db: Db, p: Proposal, m: Mutation, input: AdmissionInput, i: nat)
    requires NodesSound(db) && ManifestsSound(db) && OwnRows(m) && DistinctRows(m)
    requires Later(db, AfterMutation(db, p, m, input))
    requires i < |m.nodes| && NodeFits(db, m.nodes[i], m.derivation.None?)
    ensures NodeBindingHolds(AfterMutation(db, p, m, input), m, NodeBindings(db, m)[i], i)
    ensures m.derivation.Some? ==> NodeBindings(db, m)[i].how.Materialized?
  {
    PlaceNode(db.nodes, m.nodes, i);
    var id := m.nodes[i].id;
    if id in db.nodes {
      assert NodeSound(db, id);
      WritersKept(db, AfterMutation(db, p, m, input), id, db.nodes[id].origin);
    }
  }

  lemma FreshEdgeBinding(db: Db, p: Proposal, m: Mutation, input: AdmissionInput, i: nat)
    requires EdgesSound(db) && ManifestsSound(db) && OwnRows(m) && DistinctRows(m)
    requires Later(db, AfterMutation(db, p, m, input))
    requires i < |m.edges| && EdgeFits(db, m.edges[i], m.derivation.None?)
    ensures EdgeBindingHolds(AfterMutation(db, p, m, input), m, EdgeBindings(db, m)[i], i)
  {
    PlaceEdge(db.edges, m.edges, i);
    var id := m.edges[i].id;
    if id in db.edges {
      assert id in Colliding(db.edges, m.edges[i]);
      assert EdgeSound(db, id);
      WritersKept(db, AfterMutation(db, p, m, input), id, db.edges[id].origin);
    }
  }

  /** Before its admission a proposal owns nothing. */
  lemma PendingOwnsNothing(db: Db, p: Id)
    requires NodesSound(db) && EdgesSound(db) && p in db.proposals && db.proposals[p].outcome.Pending?
    ensures OwnedNodes(db, p) == {} && OwnedEdges(db, p) == {}
  {
    forall id | id in db.nodes
      ensures db.nodes[id].origin != p
    {
      assert NodeSound(db, id);
    }
    forall id | id in db.edges
      ensures db.edges[id].origin != p
    {
      assert EdgeSound(db, id);
    }
  }

  /** Afterwards it owns exactly what the bindings call materialized. */
  lemma OwnedAfter(db: Db, m: Mutation)
    requires OwnRows(m) && DistinctRows(m)
    requires OwnedNodes(db, m.proposal) == {} && OwnedEdges(db, m.proposal) == {}
    ensures OwnedNodes(RowsAfter(db, m), m.proposal) == MaterializedIds(NodeBindings(db, m))
    ensures OwnedEdges(RowsAfter(db, m), m.proposal) == MaterializedIds(EdgeBindings(db, m))
  {
    var after := RowsAfter(db, m);
    forall id | id in OwnedNodes(after, m.proposal)
      ensures id in MaterializedIds(NodeBindings(db, m))
    {
      assert id !in OwnedNodes(db, m.proposal);
      var i := FindNode(db.nodes, m.nodes, id);
      assert NodeBindings(db, m)[i].id == id && NodeBindings(db, m)[i].how.Materialized?;
    }
    forall id | id in MaterializedIds(NodeBindings(db, m))
      ensures id in OwnedNodes(after, m.proposal)
    {
      var i :| 0 <= i < |m.nodes| && NodeBindings(db, m)[i].how.Materialized? && NodeBindings(db, m)[i].id == id;
      PlaceNode(db.nodes, m.nodes, i);
    }
    OwnedEdgesAfter(db, m);
  }

  lemma OwnedEdgesAfter(db: Db, m: Mutation)
    requires OwnRows(m) && DistinctRows(m) && OwnedEdges(db, m.proposal) == {}
    ensures OwnedEdges(RowsAfter(db, m), m.proposal) == MaterializedIds(EdgeBindings(db, m))
  {
    var after := RowsAfter(db, m);
    forall id | id in OwnedEdges(after, m.proposal)
      ensures id in MaterializedIds(EdgeBindings(db, m))
    {
      assert id !in OwnedEdges(db, m.proposal);
      var i := FindEdge(db.edges, m.edges, id);
      assert EdgeBindings(db, m)[i].id == id && EdgeBindings(db, m)[i].how.Materialized?;
    }
    forall id | id in MaterializedIds(EdgeBindings(db, m))
      ensures id in OwnedEdges(after, m.proposal)
    {
      var i :| 0 <= i < |m.edges| && EdgeBindings(db, m)[i].how.Materialized? && EdgeBindings(db, m)[i].id == id;
      PlaceEdge(db.edges, m.edges, i);
    }
  }

  lemma FreshBindingsHold(db: Db, p: Proposal, m: Mutation, input: AdmissionInput)
    requires NodesSound(db) && EdgesSound(db) && ManifestsSound(db) && OwnRows(m) && Persistable(db, m)
    requires Later(db, AfterMutation(db, p, m, input))
    ensures ManifestFits(ManifestFor(db, m), m) && BindingsHold(AfterMutation(db, p, m, input), m, ManifestFor(db, m))
  {
    var db' := AfterMutation(db, p, m, input);
    forall i | 0 <= i < |m.nodes|
      ensures NodeBindingHolds(db', m, NodeBindings(db, m)[i], i)
      ensures m.derivation.Some? ==> NodeBindings(db, m)[i].how.Materialized?
    {
      FreshNodeBinding(db, p, m, input, i);
    }
    forall i | 0 <= i < |m.edges|
      ensures EdgeBindingHolds(db', m, EdgeBindings(db, m)[i], i)
    {
      FreshEdgeBinding(db, p, m, input, i);
    }
  }

  lemma FreshRowsHold(db: Db, p: Proposal, m: Mutation, input: AdmissionInput)
    requires NodesSound(db) && EdgesSound(db) && ManifestsSound(db) && OwnRows(m) && Persistable(db, m)
    requires m.proposal in db.proposals && db.proposals[m.proposal].outcome.Pending?
    requires Later(db, AfterMutation(db, p, m, input))
    ensures RowsHold(AfterMutation(db, p, m, input), m)
  {
    var db' := AfterMutation(db, p, m, input);
    FreshBindingsHold(db, p, m, input);
    PendingOwnsNothing(db, m.proposal);
    OwnedAfter(db, m);
    assert OwnedNodes(db', m.proposal) == OwnedNodes(RowsAfter(db, m), m.proposal);
    assert OwnedEdges(db', m.proposal) == OwnedEdges(RowsAfter(db, m), m.proposal);
  }

  lemma FreshDerivationHolds(db: Db, p: Proposal, m: Mutation, input: AdmissionInput)
    requires EachDerivationSound(db) && WellFormed(m) && DistinctRows(m)
    requires forall i :: 0 <= i < |m.nodes| ==> NodeFits(db, m.nodes[i], m.derivation.None?)
    ensures DerivationHolds(AfterMutation(db, p, m, input), m)
  {
    var db' := AfterMutation(db, p, m, input);
    if m.derivation.Some? {
      assert m.derivation.value.id in db'.derivations;
    } else {
      forall k | k in db'.derivations
        ensures db'.derivations[k].record.nodeId != m.canonicalRef
      {
        assert DerivationSound(db, k);
        assert NodeFits(db, m.nodes[0], true);
      }
    }
  }

  lemma MutationHolds(db: Db, p: Proposal, m: Mutation, input: AdmissionInput)
    requires Inv(db) && p.id in db.proposals && db.proposals[p.id] == p && p.outcome.Pending? && m.proposal == p.id
    requires WellFormed(m) && ParentsPresent(db, m) && Persistable(db, m) && Recordable(db, m)
    ensures var db' := AfterMutation(db, p, m, input); var q := Mark(p, Admitted, m.canonicalRef);
            && m.proposal in db'.proposals && db'.proposals[m.proposal] == q
            && DecisionHolds(db', q, m, input) && RowsHold(db', m)
  {
    MutationInv(db, p, m, input);
    assert OwnRows(m);
    FreshRowsHold(db, p, m, input);
    FreshDerivationHolds(db, p, m, input);
    DecisionEstablished(db, p, m, input);
  }

  /** Right after it commits, an admission can be replayed. */
  lemma ReplayEstablished(codec: Codec, db: Db, input: AdmissionInput)
    requires Inv(db) && input.proposal in db.proposals && Admissible(codec, db, db.proposals[input.proposal], input)
    ensures ReplayHolds(codec, Apply(codec, db, Admit(input)), input)
  {
    var p := db.proposals[input.proposal];
    BuiltWellFormed(codec, p, input);
    BuiltReplays(codec, db, p, input, Build(codec, p, input));
  }

  lemma BuiltReplays(codec: Codec, db: Db, p: Proposal, input: AdmissionInput, m: Mutation)
    requires Inv(db) && input.proposal in db.proposals && db.proposals[input.proposal] == p && p.outcome.Pending?
    requires Buildable(p, input) && m == Build(codec, p, input) && WellFormed(m) && m.proposal == p.id
    requires ParentsPresent(db, m) && Persistable(db, m) && Recordable(db, m)
    ensures ReplayHolds(codec, AfterMutation(db, p, m, input), input)
  {
    MutationHolds(db, p, m, input);
    AdmittedReplays(codec, AfterMutation(db, p, m, input), p, input, m);
  }

  lemma AdmittedReplays(codec: Codec, db': Db, p: Proposal, input: AdmissionInput, m: Mutation)
    requires Buildable(p, input) && m == Build(codec, p, input) && p.id == input.proposal
    requires input.proposal in db'.proposals && db'.proposals[input.proposal] == Mark(p, Admitted, m.canonicalRef)
    requires DecisionHolds(db', Mark(p, Admitted, m.canonicalRef), m, input) && RowsHold(db', m)
    ensures ReplayHolds(codec, db', input)
  {
    BuildIgnoresOutcome(codec, p, input, Admitted, m.canonicalRef);
  }

  lemma DecisionEstablished(db: Db, p: Proposal, m: Mutation, input: AdmissionInput)
    requires DerivationHolds(AfterMutation(db, p, m, input), m)
    ensures var db' := AfterMutation(db, p, m, input);
            m.proposal in db'.proposals && db'.proposals[m.proposal] == Mark(p, Admitted, m.canonicalRef)
            && DecisionHolds(db', Mark(p, Admitted, m.canonicalRef), m, input)
  {
  }

  // ----- the replay in every later store -----

  lemma BindingsKept(db: Db, db': Db, m: Mutation, man: Manifest)
    requires Inv(db) && Later(db, db') && ManifestFits(man, m) && BindingsHold(db, m, man)
    ensures BindingsHold(db', m, man)
  {
    forall i | 0 <= i < |m.nodes|
      ensures NodeBindingHolds(db', m, man.nodes[i], i)
    {
      assert NodeBindingHolds(db, m, man.nodes[i], i);
      var id := man.nodes[i].id;
      assert NodeSound(db, id);
      WritersKept(db, db', id, db.nodes[id].origin);
    }
    forall i | 0 <= i < |m.edges|
      ensures EdgeBindingHolds(db', m, man.edges[i], i)
    {
      assert EdgeBindingHolds(db, m, man.edges[i], i);
      var id := man.edges[i].id;
      assert EdgeSound(db, id);
      WritersKept(db, db', id, db.edges[id].origin);
    }
  }

  lemma OwnedNodesKept(db: Db, db': Db, owner: Id)
    requires Later(db, db') && IsAdmitted(db, owner)
    ensures OwnedNodes(db', owner) == OwnedNodes(db, owner)
  {
  }

  /** What the stored canonical node says about the mutation it was admitted as. */
  lemma RootKind(db: Db, m: Mutation)
    requires WellFormed(m) && RowsHold(db, m)
    ensures m.canonicalRef in db.nodes && db.nodes[m.canonicalRef].body.kind == m.nodes[0].body.kind
  {
    assert NodeBindingHolds(db, m, db.manifests[m.decision].nodes[0], 0);
  }

  /** A receipted relation that hangs off the admitted claim never disturbs its replay. */
  lemma AttachedIsIndependent(db: Db, db': Db, m: Mutation, e: Edge)
    requires WellFormed(m) && RowsHold(db, m) && Later(db, db')
    requires IsAdmitted(db, m.proposal) && db.proposals[m.proposal].canonicalRef == m.canonicalRef
    requires e.origin == m.proposal && !Ordinary(e.relation) && Receipted(db', e) && HangsOff(db', e)
    ensures Independent(db', m, e)
  {
    RootKind(db, m);
    assert db'.nodes[m.canonicalRef] == db.nodes[m.canonicalRef];
    assert e.from == m.canonicalRef;
    if e.relation == References {
      assert m.nodes[0].body.kind == SourceClaim;
      assert StartsAtSourceClaim(m);
    }
  }

  lemma AttributionKept(db: Db, db': Db, m: Mutation, materialized: set<Id>)
    requires WellFormed(m) && RowsHold(db, m) && Later(db, db')
    requires IsAdmitted(db, m.proposal) && db.proposals[m.proposal].canonicalRef == m.canonicalRef
    requires EdgesAttributed(db, m, materialized)
    ensures EdgesAttributed(db', m, materialized)
  {
    forall id | id in OwnedEdges(db', m.proposal) && id !in materialized
      ensures Independent(db', m, db'.edges[id])
    {
      if id in db.edges {
        assert id in OwnedEdges(db, m.proposal);
        assert Independent(db, m, db.edges[id]);
      } else {
        assert NewEdge(db, db', db'.edges[id]);
        AttachedIsIndependent(db, db', m, db'.edges[id]);
      }
    }
  }

  lemma DerivationHoldsKept(db: Db, db': Db, m: Mutation)
    requires Later(db, db') && DerivationHolds(db, m) && m.canonicalRef in db.nodes
    ensures DerivationHolds(db', m)
  {
    if m.derivation.Some? {
      var k :| k in db.derivations && db.derivations[k] == DerivationRow(m.derivation.value, m.parentEdges, m.proposal);
      assert k in db'.derivations && db'.derivations[k] == db.derivations[k];
    }
  }

  lemma RowsHoldKept(db: Db, db': Db, m: Mutation)
    requires Inv(db) && Later(db, db') && WellFormed(m) && RowsHold(db, m)
    requires IsAdmitted(db, m.proposal) && db.proposals[m.proposal].canonicalRef == m.canonicalRef
    ensures RowsHold(db', m)
  {
    var man := db.manifests[m.decision];
    BindingsKept(db, db', m, man);
    OwnedNodesKept(db, db', m.proposal);
    AttributionKept(db, db', m, MaterializedIds(man.edges));
  }

  /** Replay survives every later store. */
  lemma ReplayStable(codec: Codec, db: Db, db': Db, input: AdmissionInput)
    requires Inv(db) && Later(db, db') && ReplayHolds(codec, db, input)
    ensures ReplayHolds(codec, db', input)
  {
    var p := db.proposals[input.proposal];
    var m := Build(codec, p, input);
    BuiltWellFormed(codec, p, input);
    RootKind(db, m);
    DerivationHoldsKept(db, db', m);
    RowsHoldKept(db, db', m);
  }

  // ----- runs -----

  ghost predicate Run(codec: Codec, db: Db, steps: seq<Step>)
    decreases |steps|
  {
    steps == [] || (Enabled(codec, db, steps[0]) && Run(codec, Apply(codec, db, steps[0]), steps[1..]))
  }

  ghost function After(codec: Codec, db: Db, steps: seq<Step>): Db
    requires Run(codec, db, steps)
    decreases |steps|
  {
    if steps == [] then db else After(codec, Apply(codec, db, steps[0]), steps[1..])
  }

  lemma {:induction false} RunInv(codec: Codec, db: Db, steps: seq<Step>)
    requires Inv(db) && Run(codec, db, steps)
    ensures Inv(After(codec, db, steps))
    decreases |steps|
  {
    if steps != [] {
      StepInv(codec, db, steps[0]);
      RunInv(codec, Apply(codec, db, steps[0]), steps[1..]);
    }
  }

  lemma ReplayThroughStep(codec: Codec, db: Db, step: Step, input: AdmissionInput)
    requires Inv(db) && Enabled(codec, db, step) && ReplayHolds(codec, db, input)
    ensures Inv(Apply(codec, db, step)) && ReplayHolds(codec, Apply(codec, db, step), input)
  {
    StepInv(codec, db, step);
    ReplayStable(codec, db, Apply(codec, db, step), input);
  }

  lemma {:induction false} ReplayThroughRun(codec: Codec, db: Db, steps: seq<Step>, input: AdmissionInput)
    requires Inv(db) && Run(codec, db, steps) && ReplayHolds(codec, db, input)
    ensures ReplayHolds(codec, After(codec, db, steps), input)
    decreases |steps|
  {
    if steps != [] {
      ReplayThroughStep(codec, db, steps[0], input);
      ReplayThroughRun(codec, Apply(codec, db, steps[0]), steps[1..], input);
    }
  }

  /**
   Replay stability: whatever ran before an admission and whatever runs after it, other
   admissions, dispositions and reviewed relations on its own claim included, the same
   input is accepted again.
   */
  lemma ReplayForever(codec: Codec, before: seq<Step>, input: AdmissionInput, after: seq<Step>)
    requires Run(codec, EMPTY, before) && Enabled(codec, After(codec, EMPTY, before), Admit(input))
    requires Run(codec, Apply(codec, After(codec, EMPTY, before), Admit(input)), after)
    ensures ReplayHolds(codec, After(codec, Apply(codec, After(codec, EMPTY, before), Admit(input)), after), input)
  {
    EmptyInv();
    RunInv(codec, EMPTY, before);
    var db := After(codec, EMPTY, before);
    StepInv(codec, db, Admit(input));
    ReplayEstablished(codec, db, input);
    ReplayThroughRun(codec, Apply(codec, db, Admit(input)), after, input);
  }

  /** One extra edge that carries the proposal decides its replay: it is accepted exactly under its own receipt. */
  lemma ExtraEdgeDecides(codec: Codec, db: Db, input: AdmissionInput, e: Edge)
    requires ReplayHolds(codec, db, input) && e.id !in db.edges && e.origin == input.proposal
    ensures ReplayHolds(codec, db.(edges := db.edges[e.id := e]), input) <==>
            Independent(db, Build(codec, db.proposals[input.proposal], input), e)
  {
    var m := Build(codec, db.proposals[input.proposal], input);
    BuiltWellFormed(codec, db.proposals[input.proposal], input);
    ExtraEdgeRows(db, m, e);
  }

  lemma ExtraEdgeRows(db: Db, m: Mutation, e: Edge)
    requires RowsHold(db, m) && e.id !in db.edges && e.origin == m.proposal
    ensures RowsHold(db.(edges := db.edges[e.id := e]), m) <==> Independent(db, m, e)
  {
    var db' := db.(edges := db.edges[e.id := e]);
    BindingsIgnoreEdge(db, m, e);
    assert OwnedNodes(db', m.proposal) == OwnedNodes(db, m.proposal);
    ExtraEdgeAttributed(db, m, e, MaterializedIds(db.manifests[m.decision].edges));
  }

  lemma ExtraEdgeAttributed(db: Db, m: Mutation, e: Edge, materialized: set<Id>)
    requires EdgesAttributed(db, m, materialized) && e.id !in db.edges && e.origin == m.proposal
    ensures EdgesAttributed(db.(edges := db.edges[e.id := e]), m, materialized) <==> Independent(db, m, e)
  {
    var db' := db.(edges := db.edges[e.id := e]);
    assert OwnedEdges(db', m.proposal) == OwnedEdges(db, m.proposal) + {e.id};
    assert e.id !in OwnedEdges(db, m.proposal);
    assert Independent(db', m, db'.edges[e.id]) <==> Independent(db, m, e);
    forall id | id in OwnedEdges(db, m.proposal) && id !in materialized
      ensures Independent(db', m, db'.edges[id])
    {
      assert Independent(db, m, db.edges[id]);
    }
  }

  lemma BindingsIgnoreEdge(db: Db, m: Mutation, e: Edge)
    requires e.id !in db.edges && RowsHold(db, m)
    ensures BindingsHold(db.(edges := db.edges[e.id := e]), m, db.manifests[m.decision])
  {
    var db' := db.(edges := db.edges[e.id := e]);
    var man := db.manifests[m.decision];
    forall d, owner
      ensures Authoritative(db', d, owner) <==> Authoritative(db, d, owner)
    {
    }
    forall i | 0 <= i < |m.nodes|
      ensures NodeBindingHolds(db', m, man.nodes[i], i)
    {
      assert NodeBindingHolds(db, m, man.nodes[i], i);
      assert NodeWriters(db', man.nodes[i].id, db.nodes[man.nodes[i].id].origin)
             == NodeWriters(db, man.nodes[i].id, db.nodes[man.nodes[i].id].origin);
    }
    forall i | 0 <= i < |m.edges|
      ensures EdgeBindingHolds(db', m, man.edges[i], i)
    {
      assert EdgeBindingHolds(db, m, man.edges[i], i);
      assert EdgeWriters(db', man.edges[i].id, db.edges[man.edges[i].id].origin)
             == EdgeWriters(db, man.edges[i].id, db.edges[man.edges[i].id].origin);
    }
  }
}
