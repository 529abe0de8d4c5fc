/**
 Admission as a caller sees it: when a pending proposal is admitted, what the store then
 holds, field by field, and which requests replay it.
 */
module PlainAdmission {
  import opened Outcomes
  import opened Ordering
  import opened Evidence
  import opened Identity
  import opened AdmissionModel
  import opened AdmissionSpec
  import opened AdmissionInvariant
  import opened AdmissionReplay
  import opened AdmissionHistory
  import opened PlainMutation

  // ----- the request -----

  ghost predicate TrimmedInto(d: Option<DerivationInput>, d': Option<DerivationInput>) {
    && (d.Some? <==> d'.Some?)
    && (d.Some? ==> && d'.value.parents == d.value.parents && d'.value.methodName == TrimSpace(d.value.methodName)
                    && d'.value.producer == TrimSpace(d.value.producer)
                    && d'.value.traceRef == TrimSpace(d.value.traceRef))
  }

  lemma BlankTrims(s: string)
    ensures TrimSpace(s) == "" <==> Blank(s)
  {
    var cut := TrimLeftPart(s);
    var keep := TrimRightPart(TrimLeft(s));
    var left := TrimLeft(s);
    assert s == s[..cut] + left && left == left[..keep] + left[keep..];
    if keep > 0 {
      assert TrimSpace(s)[|TrimSpace(s)| - 1] in s;
    }
  }

  /** Texts are trimmed; a missing decider or reason gets the default of its kind. */
  lemma NormalizedPlainly(input: AdmissionInput)
    ensures var n := NormalizeInput(input);
            && n.proposal == TrimSpace(input.proposal)
            && n.decider ==
               (if Blank(input.decider) then "ahe-ingestion-admission-slice9" else TrimSpace(input.decider))
            && (!Blank(input.reason) ==> n.reason == TrimSpace(input.reason))
            && (Blank(input.reason) ==>
                  n.reason == if input.candidate.Some? then CANDIDATE_REASON
                              else if input.derivation.Some? then DERIVED_REASON else SOURCE_REASON)
            && TrimmedInto(input.derivation, n.derivation) && TrimmedInto(input.candidate, n.candidate)
  {
    BlankTrims(input.decider);
    BlankTrims(input.reason);
  }

  /** One to sixty-four distinct node ids, and a method, producer and trace. */
  ghost predicate DerivationPlain(d: DerivationInput) {
    && 1 <= |d.parents| <= 64 && d.methodName != "" && d.producer != "" && d.traceRef != ""
    && (forall i :: 0 <= i < |d.parents| ==> "canon-node:" <= TrimSpace(d.parents[i]))
    && (forall i, j :: 0 <= i < j < |d.parents| ==> TrimSpace(d.parents[i]) != TrimSpace(d.parents[j]))
  }

  /** At most one of derivation and candidate; without either, quoted spans under a supported binding. */
  lemma BuildablePlainly(p: Proposal, input: AdmissionInput)
    ensures Buildable(p, input) <==>
            && (input.derivation.None? || input.candidate.None?)
            && (input.derivation.Some? ==> DerivationPlain(input.derivation.value))
            && (input.candidate.Some? ==> DerivationPlain(input.candidate.value))
            && (input.derivation.None? && input.candidate.None? ==> |p.refs| > 0 && !p.binding.Unsupported?)
  {
    if input.derivation.Some? {
      OneDerivationPlain(input.derivation.value);
    }
    if input.candidate.Some? {
      OneDerivationPlain(input.candidate.value);
    }
  }

  lemma OneDerivationPlain(d: DerivationInput)
    ensures DerivationBuildable(d) <==> DerivationPlain(d)
  {
    var t := Trimmed(d.parents);
    assert forall i :: 0 <= i < |t| ==> t[i] == TrimSpace(d.parents[i]);
  }

  // ----- when a proposal is admitted -----

  /** The row is new, or its id holds the same content and the mutation may share rows. */
  ghost predicate NodeFree(db: Db, n: Node, share: bool) {
    n.id in db.nodes ==> share && db.nodes[n.id].body == n.body
  }

  /** Every stored edge under the same id or between the same ends is this very edge. */
  ghost predicate EdgeFree(db: Db, e: Edge, share: bool) {
    forall id :: id in db.edges
                 && (id == e.id || (db.edges[id].from == e.from && db.edges[id].to == e.to
                                    && db.edges[id].relation == e.relation)) ==>
      && share && id == e.id && db.edges[id].from == e.from && db.edges[id].to == e.to
      && db.edges[id].relation == e.relation && db.edges[id].provenance == e.provenance
  }

  ghost predicate RowsDiffer(m: Mutation) {
    && (forall i, j :: 0 <= i < j < |m.nodes| ==> m.nodes[i].id != m.nodes[j].id)
    && (forall i, j :: 0 <= i < j < |m.edges| ==> m.edges[i].id != m.edges[j].id)
  }

  ghost predicate RowsFree(db: Db, m: Mutation) {
    && RowsDiffer(m)
    && (forall i :: 0 <= i < |m.nodes| ==> NodeFree(db, m.nodes[i], m.derivation.None?))
    && (forall i :: 0 <= i < |m.edges| ==> EdgeFree(db, m.edges[i], m.derivation.None?))
  }

  /** A derivation needs a new target, stored parents, and an id and parent edges that no other has. */
  ghost predicate DerivationFree(db: Db, m: Mutation) {
    m.derivation.Some? ==>
      && m.canonicalRef !in db.nodes && m.derivation.value.id !in db.derivations
      && (forall x :: x in m.derivation.value.parents ==> x in db.nodes)
      && (forall k, x, y :: k in db.derivations && x in db.derivations[k].parentEdges && y in m.parentEdges ==>
            db.derivations[k].parentEdges[x] != m.parentEdges[y])
  }

  lemma OneEdgeFree(db: Db, e: Edge, share: bool)
    requires EdgesSound(db) && UniqueTriples(db.edges) && Ordinary(e.relation)
    requires e.origin in db.proposals && db.proposals[e.origin].outcome.Pending?
    ensures EdgeFits(db, e, share) <==> EdgeFree(db, e, share)
  {
    EdgeReuseDecidedByBody(db, e, share);
    var hits := Colliding(db.edges, e);
    assert forall id :: id in hits <==> id in db.edges && (id == e.id || db.edges[id].SameTriple(e));
    if hits != {} && e.id in db.edges && db.edges[e.id].SameBody(e) {
      CollidesWithItselfOnly(db.edges, e);
    }
  }

  lemma RowsFreely(db: Db, m: Mutation)
    requires Inv(db) && WellFormed(m) && m.proposal in db.proposals && db.proposals[m.proposal].outcome.Pending?
    ensures Persistable(db, m) <==> RowsFree(db, m)
  {
    forall i | 0 <= i < |m.nodes|
      ensures NodeFits(db, m.nodes[i], m.derivation.None?) <==> NodeFree(db, m.nodes[i], m.derivation.None?)
    {
      ReuseDecidedByBody(db, m.nodes[i], m.derivation.None?);
    }
    forall i | 0 <= i < |m.edges|
      ensures EdgeFits(db, m.edges[i], m.derivation.None?) <==> EdgeFree(db, m.edges[i], m.derivation.None?)
    {
      OneEdgeFree(db, m.edges[i], m.derivation.None?);
    }
    KeysPlain(m);
  }

  lemma SameTailSameHead(a: string, b: string, tail: string)
    requires a + tail == b + tail
    ensures a == b
  {
    assert |a| == |b|;
    assert a == (a + tail)[..|a|] && b == (b + tail)[..|b|];
  }

  ghost predicate SameTarget(edges: seq<Edge>) {
    forall i, j :: 0 <= i < j < |edges| ==>
      edges[i].from != edges[j].from && edges[i].to == edges[j].to && edges[i].relation == edges[j].relation
  }

  /** All edges of a mutation end in one node, so their starts tell them apart. */
  lemma StartsApart(m: Mutation)
    requires WellFormed(m) && forall i, j :: 0 <= i < j < |m.nodes| ==> m.nodes[i].id != m.nodes[j].id
    ensures SameTarget(m.edges)
  {
  }

  lemma TriplesApart(d: Edge, e: Edge)
    requires d.from != e.from && d.to == e.to && d.relation == e.relation
    ensures TripleKey(d) != TripleKey(e)
  {
    var tail := [NUL] + d.to + [NUL] + RelationName(d.relation);
    assert TripleKey(d) == d.from + tail && TripleKey(e) == e.from + tail;
    if TripleKey(d) == TripleKey(e) {
      SameTailSameHead(d.from, e.from, tail);
    }
  }

  lemma TriplesFollow(edges: seq<Edge>)
    requires SameTarget(edges)
    ensures DistinctKeys(edges, TripleKey)
  {
    forall i, j | 0 <= i < j < |edges|
      ensures TripleKey(edges[i]) != TripleKey(edges[j])
    {
      TriplesApart(edges[i], edges[j]);
    }
  }

  lemma KeysPlain(m: Mutation)
    requires WellFormed(m)
    ensures DistinctRows(m) <==> RowsDiffer(m)
  {
    if RowsDiffer(m) {
      StartsApart(m);
      TriplesFollow(m.edges);
    }
  }

  /** Nothing has been decided or recorded about the proposal. */
  ghost predicate NoRecords(db: Db, proposal: Id) {
    && (forall d :: d in db.decisions ==> db.decisions[d].proposal != proposal)
    && (forall d :: d in db.manifests ==> db.manifests[d].proposal != proposal && d in db.decisions)
  }

  lemma NoRecordsYet(db: Db, proposal: Id)
    requires Inv(db) && proposal in db.proposals && db.proposals[proposal].outcome.Pending?
    ensures NoRecords(db, proposal)
  {
    forall d | d in db.decisions
      ensures db.decisions[d].proposal != proposal
    {
      assert DecisionSound(db, d);
    }
    forall d | d in db.manifests
      ensures db.manifests[d].proposal != proposal && d in db.decisions
    {
      assert ManifestSound(db, d);
    }
  }

  lemma NoDerivationYet(db: Db, m: Mutation, k: Id)
    requires Inv(db) && m.proposal in db.proposals && db.proposals[m.proposal].outcome.Pending?
    requires k in db.derivations && m.canonicalRef !in db.nodes
    ensures db.derivations[k].record.nodeId != m.canonicalRef && db.derivations[k].origin != m.proposal
  {
    assert DerivationSound(db, k);
    assert NodeSound(db, db.derivations[k].record.nodeId);
  }

  lemma EdgesClaimed(a: map<Id, Id>, b: map<Id, Id>)
    ensures a.Values !! b.Values <==> forall x, y :: x in a && y in b ==> a[x] != b[y]
  {
    if a.Values !! b.Values {
      forall x, y | x in a && y in b
        ensures a[x] != b[y]
      {
        assert a[x] in a.Values && b[y] in b.Values;
      }
    }
  }

  /** The stored derivation neither has this target or owner nor any of these parent edges. */
  ghost predicate Unclaimed(row: DerivationRow, m: Mutation) {
    && row.record.nodeId != m.canonicalRef && row.origin != m.proposal && row.parentEdges.Values !! m.parentEdges.Values
  }

  lemma UnclaimedExactly(db: Db, m: Mutation, k: Id)
    requires Inv(db) && m.proposal in db.proposals && db.proposals[m.proposal].outcome.Pending?
    requires k in db.derivations && m.canonicalRef !in db.nodes
    ensures Unclaimed(db.derivations[k], m) <==>
            forall x, y :: x in db.derivations[k].parentEdges && y in m.parentEdges ==>
              db.derivations[k].parentEdges[x] != m.parentEdges[y]
  {
    NoDerivationYet(db, m, k);
    EdgesClaimed(db.derivations[k].parentEdges, m.parentEdges);
  }

  ghost predicate AllUnclaimed(db: Db, m: Mutation) {
    forall k {:trigger Unclaimed(db.derivations[k], m)} :: k in db.derivations ==> Unclaimed(db.derivations[k], m)
  }

  lemma AllUnclaimedExactly(db: Db, m: Mutation)
    requires Inv(db) && m.proposal in db.proposals && db.proposals[m.proposal].outcome.Pending?
    requires m.canonicalRef !in db.nodes
    ensures AllUnclaimed(db, m) <==>
            forall k, x, y :: k in db.derivations && x in db.derivations[k].parentEdges && y in m.parentEdges ==>
              db.derivations[k].parentEdges[x] != m.parentEdges[y]
  {
    forall k | k in db.derivations
      ensures Unclaimed(db.derivations[k], m) <==>
              forall x, y :: x in db.derivations[k].parentEdges && y in m.parentEdges ==>
                db.derivations[k].parentEdges[x] != m.parentEdges[y]
    {
      UnclaimedExactly(db, m, k);
    }
  }

  ghost predicate OwnTarget(m: Mutation) {
    m.derivation.Some? ==> m.derivation.value.nodeId == m.canonicalRef
  }

  lemma RecordableByParts(db: Db, m: Mutation)
    requires NoRecords(db, m.proposal) && OwnTarget(m)
    ensures Recordable(db, m) <==>
            && (m.derivation.Some? ==> m.derivation.value.id !in db.derivations && AllUnclaimed(db, m))
            && m.decision !in db.decisions
  {
    if m.derivation.Some? && AllUnclaimed(db, m) {
      forall k | k in db.derivations
        ensures && db.derivations[k].record.nodeId != m.derivation.value.nodeId
                && db.derivations[k].origin != m.proposal
                && db.derivations[k].parentEdges.Values !! m.parentEdges.Values
      {
        assert Unclaimed(db.derivations[k], m);
      }
    }
  }

  ghost predicate ParentsStored(db: Db, m: Mutation) {
    m.derivation.Some? ==> forall x :: x in m.derivation.value.parents ==> x in db.nodes
  }

  lemma ParentsPresentByParts(db: Db, m: Mutation)
    ensures ParentsPresent(db, m) <==> (m.derivation.Some? ==> m.canonicalRef !in db.nodes) && ParentsStored(db, m)
  {
  }

  lemma RecordsFreely(db: Db, m: Mutation)
    requires Inv(db) && WellFormed(m) && m.proposal in db.proposals && db.proposals[m.proposal].outcome.Pending?
    ensures ParentsPresent(db, m) && Recordable(db, m) <==> DerivationFree(db, m) && m.decision !in db.decisions
  {
    NoRecordsYet(db, m.proposal);
    if m.derivation.Some? && m.canonicalRef !in db.nodes {
      AllUnclaimedExactly(db, m);
    }
    FreeByParts(db, m);
  }

  lemma FreeByParts(db: Db, m: Mutation)
    requires NoRecords(db, m.proposal) && OwnTarget(m)
    requires m.derivation.Some? && m.canonicalRef !in db.nodes ==>
               (AllUnclaimed(db, m) <==>
                forall k, x, y :: k in db.derivations && x in db.derivations[k].parentEdges && y in m.parentEdges ==>
                  db.derivations[k].parentEdges[x] != m.parentEdges[y])
    ensures ParentsPresent(db, m) && Recordable(db, m) <==> DerivationFree(db, m) && m.decision !in db.decisions
  {
    RecordableByParts(db, m);
    ParentsPresentByParts(db, m);
  }

  /**
   In every reachable store a pending proposal is admitted exactly when it is a succeeded
   statement, can be built, each row it builds is new or stored with the same content, and a
   derivation adds a new node under stored parents.
   */
  lemma AdmissibleExactly(codec: Codec, db: Db, input: AdmissionInput)
    requires Inv(db) && input.proposal in db.proposals && db.proposals[input.proposal].outcome.Pending?
    ensures var p := db.proposals[input.proposal];
            Admissible(codec, db, p, input) <==>
            && p.attempt == "succeeded" && p.kind == "statement" && Buildable(p, input)
            && var m := Build(codec, p, input);
               RowsFree(db, m) && DerivationFree(db, m) && m.decision !in db.decisions
  {
    var p := db.proposals[input.proposal];
    if Buildable(p, input) {
      BuiltWellFormed(codec, p, input);
      RowsFreely(db, Build(codec, p, input));
      RecordsFreely(db, Build(codec, p, input));
    }
  }

  // ----- what the store then holds -----

  /** Stored rows stay as they are, and each built row is there: the new ones as built, the others by content. */
  ghost predicate NodesAdded(nodes: map<Id, Node>, built: seq<Node>, nodes': map<Id, Node>) {
    && (forall id :: id in nodes ==> id in nodes' && nodes'[id] == nodes[id])
    && (forall i :: 0 <= i < |built| ==> built[i].id in nodes' && nodes'[built[i].id].body == built[i].body)
    && (forall id :: id in nodes' && id !in nodes ==>
        exists i :: 0 <= i < |built| && built[i].id == id && nodes'[id] == built[i])
  }

  ghost predicate SameEdge(e: Edge, e': Edge) {
    e'.id == e.id && e'.from == e.from && e'.to == e.to && e'.relation == e.relation && e'.provenance == e.provenance
  }

  ghost predicate EdgesAdded(edges: map<Id, Edge>, built: seq<Edge>, edges': map<Id, Edge>) {
    && (forall id :: id in edges ==> id in edges' && edges'[id] == edges[id])
    && (forall i :: 0 <= i < |built| ==> built[i].id in edges' && SameEdge(built[i], edges'[built[i].id]))
    && (forall id :: id in edges' && id !in edges ==>
        exists i :: 0 <= i < |built| && built[i].id == id && edges'[id] == built[i])
  }

  lemma NodesAddedPlainly(db: Db, m: Mutation)
    requires RowsFree(db, m)
    ensures NodesAdded(db.nodes, m.nodes, NodesWith(db.nodes, m.nodes))
  {
    IndexKeys(m.nodes, NodeKey);
    var nodes' := NodesWith(db.nodes, m.nodes);
    forall i | 0 <= i < |m.nodes|
      ensures m.nodes[i].id in nodes' && nodes'[m.nodes[i].id].body == m.nodes[i].body
    {
      assert NodeFree(db, m.nodes[i], m.derivation.None?);
      assert NodeKey(m.nodes[i]) in Index(m.nodes, NodeKey);
    }
  }

  lemma EdgesAddedPlainly(db: Db, m: Mutation)
    requires RowsFree(db, m) && EdgesSound(db)
    ensures EdgesAdded(db.edges, m.edges, EdgesWith(db.edges, m.edges))
  {
    IndexKeys(m.edges, EdgeKey);
    var edges' := EdgesWith(db.edges, m.edges);
    forall i | 0 <= i < |m.edges|
      ensures m.edges[i].id in edges' && SameEdge(m.edges[i], edges'[m.edges[i].id])
    {
      assert EdgeFree(db, m.edges[i], m.derivation.None?);
      assert EdgeKey(m.edges[i]) in Index(m.edges, EdgeKey);
      if m.edges[i].id in db.edges {
        assert EdgeSound(db, m.edges[i].id);
      }
    }
  }

  ghost predicate ProposalDone(db: Db, db': Db, p: Proposal, ref: Id) {
    && db'.proposals.Keys == db.proposals.Keys
    && (forall x :: x in db.proposals && x != p.id ==> db'.proposals[x] == db.proposals[x])
    && p.id in db'.proposals && db'.proposals[p.id] == p.(outcome := Admitted, canonicalRef := ref)
  }

  /** One decision more, with the request's decider and reason. */
  ghost predicate Decided(db: Db, db': Db, m: Mutation, input: AdmissionInput) {
    && m.decision !in db.decisions && db'.decisions.Keys == db.decisions.Keys + {m.decision}
    && (forall d :: d in db.decisions ==> db'.decisions[d] == db.decisions[d])
    && db'.decisions[m.decision].proposal == m.proposal && db'.decisions[m.decision].outcome == Admitted
    && db'.decisions[m.decision].canonicalRef == m.canonicalRef
    && db'.decisions[m.decision].rawNodes == m.rawNodes && db'.decisions[m.decision].edges == m.edgeIds
    && db'.decisions[m.decision].decider == input.decider && db'.decisions[m.decision].reason == input.reason
  }

  /** The manifest binds the rows one for one: the claim, then the raw evidence by position. */
  ghost predicate NodesBound(db: Db, m: Mutation, bindings: seq<Binding>) {
    && |bindings| == |m.nodes|
    && forall i :: 0 <= i < |m.nodes| ==>
         && bindings[i].id == m.nodes[i].id && (bindings[i].how.Materialized? <==> m.nodes[i].id !in db.nodes)
         && bindings[i].role == (if i == 0 then CanonicalRef else RawNode)
         && bindings[i].position == (if i == 0 then 0 else i - 1)
  }

  ghost predicate EdgesBound(db: Db, m: Mutation, bindings: seq<Binding>) {
    && |bindings| == |m.edges|
    && forall i :: 0 <= i < |m.edges| ==>
         && bindings[i].id == m.edges[i].id && (bindings[i].how.Materialized? <==> m.edges[i].id !in db.edges)
         && bindings[i].role == (if m.derivation.Some? then Derived else Supports) && bindings[i].position == i
  }

  ghost predicate Recorded(db: Db, db': Db, m: Mutation) {
    && m.decision !in db.manifests && db'.manifests.Keys == db.manifests.Keys + {m.decision}
    && (forall d :: d in db.manifests ==> db'.manifests[d] == db.manifests[d])
    && var man := db'.manifests[m.decision];
       && man.proposal == m.proposal && man.canonicalRef == m.canonicalRef && man.outcome == Admitted
       && (man.kind == SourceBacked <==> m.derivation.None?)
       && (m.derivation.Some? && m.nodes != [] ==>
             (man.kind == CandidateKind <==> m.nodes[0].body.kind == Candidate))
       && NodesBound(db, m, man.nodes) && EdgesBound(db, m, man.edges)
  }

  ghost predicate DerivationAdded(db: Db, db': Db, m: Mutation) {
    && (forall k :: k in db.derivations ==> k in db'.derivations && db'.derivations[k] == db.derivations[k])
    && (m.derivation.None? ==> db'.derivations.Keys == db.derivations.Keys)
    && (m.derivation.Some? ==>
          && m.derivation.value.id !in db.derivations
          && db'.derivations.Keys == db.derivations.Keys + {m.derivation.value.id}
          && db'.derivations[m.derivation.value.id].record == m.derivation.value
          && db'.derivations[m.derivation.value.id].parentEdges == m.parentEdges
          && db'.derivations[m.derivation.value.id].origin == m.proposal)
  }

  /** An admission adds the built rows, one decision, one manifest and at most one derivation, and nothing else. */
  lemma AdmittedPlainly(codec: Codec, db: Db, input: AdmissionInput)
    requires Inv(db) && Enabled(codec, db, Admit(input))
    ensures var p, db' := db.proposals[input.proposal], Apply(codec, db, Admit(input));
            var m := Build(codec, p, input);
            && NodesAdded(db.nodes, m.nodes, db'.nodes) && EdgesAdded(db.edges, m.edges, db'.edges)
            && ProposalDone(db, db', p, m.canonicalRef) && Decided(db, db', m, input) && Recorded(db, db', m)
            && DerivationAdded(db, db', m) && db'.receipts == db.receipts
  {
    var p := db.proposals[input.proposal];
    var m := Build(codec, p, input);
    BuiltWellFormed(codec, p, input);
    AdmissibleExactly(codec, db, input);
    NodesAddedPlainly(db, m);
    EdgesAddedPlainly(db, m);
    NoRecordsYet(db, m.proposal);
    RecordedPlainly(db, p, m, input);
  }

  lemma RecordedPlainly(db: Db, p: Proposal, m: Mutation, input: AdmissionInput)
    requires WellFormed(m) && NoRecords(db, m.proposal) && m.proposal == p.id && p.id in db.proposals
    requires db.proposals[p.id] == p && DerivationFree(db, m) && m.decision !in db.decisions
    ensures var db' := AfterMutation(db, p, m, input);
            && ProposalDone(db, db', p, m.canonicalRef) && Decided(db, db', m, input) && Recorded(db, db', m)
            && DerivationAdded(db, db', m)
  {
    var db' := AfterMutation(db, p, m, input);
    assert m.decision !in db.manifests;
    BoundPlainly(db, m);
    ManifestAdded(db, db', m);
    DerivationAddedPlainly(db, db', m);
  }

  lemma ManifestAdded(db: Db, db': Db, m: Mutation)
    requires m.decision !in db.manifests && db'.manifests == db.manifests[m.decision := ManifestFor(db, m)]
    requires NodesBound(db, m, NodeBindings(db, m)) && EdgesBound(db, m, EdgeBindings(db, m))
    ensures Recorded(db, db', m)
  {
  }

  lemma DerivationAddedPlainly(db: Db, db': Db, m: Mutation)
    requires DerivationFree(db, m) && db'.derivations == DerivationsAfter(db, m)
    ensures DerivationAdded(db, db', m)
  {
  }

  lemma BoundPlainly(db: Db, m: Mutation)
    requires WellFormed(m)
    ensures NodesBound(db, m, NodeBindings(db, m)) && EdgesBound(db, m, EdgeBindings(db, m))
  {
  }

  /** A disposition marks its pending proposal and adds one decision without rows. */
  lemma DisposedPlainly(
    codec: Codec, db: Db, proposal: Id, outcome: Outcome, decision: Id, decider: string, reason: string)
    requires Enabled(codec, db, Dispose(proposal, outcome, decision, decider, reason))
    ensures outcome == Rejected || outcome == AuditOnly
    ensures var db' := Apply(codec, db, Dispose(proposal, outcome, decision, decider, reason));
            && db'.proposals.Keys == db.proposals.Keys && db'.proposals[proposal].outcome == outcome
            && (forall x :: x in db.proposals && x != proposal ==> db'.proposals[x] == db.proposals[x])
            && decision !in db.decisions && db'.decisions.Keys == db.decisions.Keys + {decision}
            && (forall d :: d in db.decisions ==> db'.decisions[d] == db.decisions[d])
            && db'.decisions[decision].proposal == proposal && db'.decisions[decision].outcome == outcome
            && db'.decisions[decision].decider == decider && db'.decisions[decision].reason == reason
            && db'.nodes == db.nodes && db'.edges == db.edges && db'.derivations == db.derivations
            && db'.manifests == db.manifests && db'.receipts == db.receipts
  {
  }

  // ----- which requests replay -----

  /** The same method, producer and trace over the same parents, in any order and with any margins. */
  ghost predicate SameDerivation(d: DerivationInput, d': DerivationInput) {
    && d'.methodName == d.methodName && d'.producer == d.producer && d'.traceRef == d.traceRef
    && multiset(Trimmed(d'.parents)) == multiset(Trimmed(d.parents))
  }

  ghost predicate SameOption(d: Option<DerivationInput>, d': Option<DerivationInput>) {
    (d.Some? <==> d'.Some?) && (d.Some? ==> SameDerivation(d.value, d'.value))
  }

  lemma {:induction false} SameNodes(db: Db, m: Mutation, m': Mutation)
    requires WellFormed(m) && WellFormed(m') && m'.proposal == m.proposal && m'.decision == m.decision
    requires RowsHold(db, m) && RowsHold(db, m')
    ensures m'.nodes == m.nodes
  {
    var man := db.manifests[m.decision];
    forall i | 0 <= i < |m.nodes|
      ensures m'.nodes[i] == m.nodes[i]
    {
      assert NodeBindingHolds(db, m, man.nodes[i], i) && NodeBindingHolds(db, m', man.nodes[i], i);
    }
  }

  lemma {:induction false} SameEdges(db: Db, m: Mutation, m': Mutation)
    requires WellFormed(m) && WellFormed(m') && m'.proposal == m.proposal && m'.decision == m.decision
    requires RowsHold(db, m) && RowsHold(db, m')
    ensures m'.edges == m.edges
  {
    var man := db.manifests[m.decision];
    forall i | 0 <= i < |m.edges|
      ensures m'.edges[i] == m.edges[i]
    {
      assert EdgeBindingHolds(db, m, man.edges[i], i) && EdgeBindingHolds(db, m', man.edges[i], i);
    }
  }

  lemma SameRecord(db: Db, m: Mutation, m': Mutation)
    requires WellFormed(m) && WellFormed(m') && m'.canonicalRef == m.canonicalRef
    requires OneDerivationEach(db.derivations) && DerivationHolds(db, m) && DerivationHolds(db, m')
    ensures m'.derivation == m.derivation && (m.derivation.Some? ==> m'.parentEdges == m.parentEdges)
  {
    if m.derivation.Some? {
      var k :| k in db.derivations && db.derivations[k] == DerivationRow(m.derivation.value, m.parentEdges, m.proposal);
      assert db.derivations[k].record.nodeId == m'.canonicalRef;
    }
    if m'.derivation.Some? {
      var k :| k in db.derivations
               && db.derivations[k] == DerivationRow(m'.derivation.value, m'.parentEdges, m'.proposal);
      assert db.derivations[k].record.nodeId == m.canonicalRef;
    }
  }

  lemma NoParentEdges(codec: Codec, p: Proposal, input: AdmissionInput)
    requires Buildable(p, input)
    ensures Build(codec, p, input).derivation.None? ==> Build(codec, p, input).parentEdges == NO_DERIVATION
  {
  }

  lemma OneDecision(db: Db, p: Proposal, m: Mutation, m': Mutation, input: AdmissionInput, input': AdmissionInput)
    requires OneDecisionEach(db.decisions) && m'.proposal == m.proposal
    requires DecisionHolds(db, p, m, input) && DecisionHolds(db, p, m', input')
    ensures m'.decision == m.decision && m'.canonicalRef == m.canonicalRef && m'.rawNodes == m.rawNodes
    ensures m'.edgeIds == m.edgeIds && input'.decider == input.decider && input'.reason == input.reason
  {
    assert db.decisions[m.decision].proposal == m.proposal && db.decisions[m'.decision].proposal == m'.proposal;
  }

  /** Two accepted replays of one proposal carry the same audit texts and build the same rows. */
  lemma ReplaysAgree(codec: Codec, db: Db, input: AdmissionInput, input': AdmissionInput)
    requires Inv(db) && ReplayHolds(codec, db, input) && ReplayHolds(codec, db, input')
    requires input'.proposal == input.proposal
    ensures var p := db.proposals[input.proposal];
            && input'.decider == input.decider && input'.reason == input.reason
            && Build(codec, p, input') == Build(codec, p, input)
  {
    var p := db.proposals[input.proposal];
    var m, m' := Build(codec, p, input), Build(codec, p, input');
    BuiltWellFormed(codec, p, input);
    BuiltWellFormed(codec, p, input');
    OneDecision(db, p, m, m', input, input');
    SameNodes(db, m, m');
    SameEdges(db, m, m');
    SameRecord(db, m, m');
    NoParentEdges(codec, p, input);
    NoParentEdges(codec, p, input');
  }

  lemma SortedAgree(values: seq<Id>, values': seq<Id>)
    requires ParentsAcceptable(values)
    ensures multiset(Trimmed(values')) == multiset(Trimmed(values)) <==>
            SortBy(Trimmed(values'), SelfKey) == SortBy(Trimmed(values), SelfKey)
  {
    SortFacts(Trimmed(values), SelfKey);
    SortFacts(Trimmed(values'), SelfKey);
    if multiset(Trimmed(values')) == multiset(Trimmed(values)) {
      DistinctKeysPermuted(Trimmed(values), Trimmed(values'), SelfKey);
      SortCanonical(Trimmed(values), Trimmed(values'), SelfKey);
    }
  }

  ghost predicate SameMethod(d: DerivationInput, d': DerivationInput) {
    d'.methodName == d.methodName && d'.producer == d.producer && d'.traceRef == d.traceRef
  }

  lemma EdgesByMethod(
    codec: Codec, p: Proposal, nodeId: Id, parents: seq<Id>, d: DerivationInput, d': DerivationInput)
    requires SameMethod(d, d')
    ensures DerivedEdges(codec, p, nodeId, parents, d') == DerivedEdges(codec, p, nodeId, parents, d)
  {
    forall i | 0 <= i < |parents|
      ensures DerivedEdge(codec, p, nodeId, parents, d', parents[i]) ==
              DerivedEdge(codec, p, nodeId, parents, d, parents[i])
    {
    }
  }

  lemma NodeByMethod(
    codec: Codec, p: Proposal, kind: NodeKind, parents: seq<Id>, d: DerivationInput, d': DerivationInput)
    requires SameMethod(d, d')
    ensures DerivedNode(codec, p, kind, parents, d') == DerivedNode(codec, p, kind, parents, d)
  {
  }

  lemma RowsByMethod(
    codec: Codec, p: Proposal, kind: NodeKind, parents: seq<Id>, d: DerivationInput, d': DerivationInput)
    requires SameMethod(d, d')
    ensures DerivedMutation(codec, p, kind, parents, d') == DerivedMutation(codec, p, kind, parents, d)
  {
    NodeByMethod(codec, p, kind, parents, d, d');
    EdgesByMethod(codec, p, DerivedNode(codec, p, kind, parents, d).id, parents, d, d');
  }

  lemma RowsShowMethod(codec: Codec, p: Proposal, kind: NodeKind, parents: seq<Id>, d: DerivationInput)
    ensures var m := DerivedMutation(codec, p, kind, parents, d);
            && |m.nodes| == 1 && m.nodes[0].body.kind == kind && m.derivation.Some?
            && m.derivation.value.parents == parents && m.derivation.value.methodName == d.methodName
            && m.derivation.value.producer == d.producer && m.derivation.value.traceRef == d.traceRef
  {
  }

  lemma SameDerivationSameRows(
    codec: Codec, p: Proposal, kind: NodeKind, kind': NodeKind, d: DerivationInput, d': DerivationInput)
    requires DerivationBuildable(d)
    ensures DerivedMutation(codec, p, kind', SortBy(Trimmed(d'.parents), SelfKey), d') ==
            DerivedMutation(codec, p, kind, SortBy(Trimmed(d.parents), SelfKey), d) <==>
            kind' == kind && SameDerivation(d, d')
  {
    SortedAgree(d.parents, d'.parents);
    RowsShowMethod(codec, p, kind, SortBy(Trimmed(d.parents), SelfKey), d);
    RowsShowMethod(codec, p, kind', SortBy(Trimmed(d'.parents), SelfKey), d');
    if SameMethod(d, d') {
      RowsByMethod(codec, p, kind, SortBy(Trimmed(d.parents), SelfKey), d, d');
    }
  }

  lemma SameParentsBuildable(d: DerivationInput, d': DerivationInput)
    requires DerivationBuildable(d) && SameDerivation(d, d')
    ensures DerivationBuildable(d')
  {
    var t, t' := Trimmed(d.parents), Trimmed(d'.parents);
    PermutationFacts(t, t');
    assert DistinctKeys(t, SelfKey);
    DistinctKeysPermuted(t, t', SelfKey);
    forall i, j | 0 <= i < j < |t'|
      ensures t'[i] != t'[j]
    {
      assert SelfKey(t'[i]) != SelfKey(t'[j]);
    }
    forall i | 0 <= i < |d'.parents|
      ensures HasNodePrefix(TrimSpace(d'.parents[i]))
    {
      assert t'[i] in t;
    }
  }

  lemma SameRequestBuildable(p: Proposal, input: AdmissionInput, input': AdmissionInput)
    requires Buildable(p, input)
    requires SameOption(input.derivation, input'.derivation) && SameOption(input.candidate, input'.candidate)
    ensures Buildable(p, input')
  {
    if input.candidate.Some? {
      SameParentsBuildable(input.candidate.value, input'.candidate.value);
    } else if input.derivation.Some? {
      SameParentsBuildable(input.derivation.value, input'.derivation.value);
    }
  }

  function KindAsked(input: AdmissionInput): NodeKind {
    if input.candidate.Some? then Candidate else if input.derivation.Some? then DerivedClaim else SourceClaim
  }

  lemma KindBuilt(codec: Codec, p: Proposal, input: AdmissionInput)
    requires Buildable(p, input)
    ensures Build(codec, p, input).nodes != [] && Build(codec, p, input).nodes[0].body.kind == KindAsked(input)
  {
  }

  /** Two inputs build the same rows exactly when they ask for the same thing. */
  lemma SameRequestSameRows(codec: Codec, p: Proposal, input: AdmissionInput, input': AdmissionInput)
    requires Buildable(p, input) && Buildable(p, input')
    ensures Build(codec, p, input') == Build(codec, p, input) <==>
            SameOption(input.derivation, input'.derivation) && SameOption(input.candidate, input'.candidate)
  {
    KindBuilt(codec, p, input);
    KindBuilt(codec, p, input');
    if KindAsked(input) == KindAsked(input') {
      if input.candidate.Some? {
        SameDerivationSameRows(codec, p, Candidate, Candidate, input.candidate.value, input'.candidate.value);
      } else if input.derivation.Some? {
        SameDerivationSameRows(codec, p, DerivedClaim, DerivedClaim, input.derivation.value, input'.derivation.value);
      }
    }
  }

  /**
   Once a request is accepted as a replay, another of the same proposal is accepted exactly
   when it has the same decider and reason and asks for the same derivation, if any.
   */
  lemma ReplaysExactly(codec: Codec, db: Db, input: AdmissionInput, input': AdmissionInput)
    requires Inv(db) && ReplayHolds(codec, db, input) && input'.proposal == input.proposal
    ensures ReplayHolds(codec, db, input') <==>
            && input'.decider == input.decider && input'.reason == input.reason
            && SameOption(input.derivation, input'.derivation) && SameOption(input.candidate, input'.candidate)
  {
    var p := db.proposals[input.proposal];
    if ReplayHolds(codec, db, input') {
      ReplaysAgree(codec, db, input, input');
      SameRequestSameRows(codec, p, input, input');
    }
    if SameOption(input.derivation, input'.derivation) && SameOption(input.candidate, input'.candidate) {
      SameRequestBuildable(p, input, input');
      SameRequestSameRows(codec, p, input, input');
    }
  }

  // ----- a claim with a new statement -----

  /** Some admitted input of a stored proposal built this row. */
  ghost predicate BuiltBy(codec: Codec, db: Db, id: Id, owner: Id, input: AdmissionInput, i: nat) {
    && owner in db.proposals && Buildable(db.proposals[owner], input)
    && var m := Build(codec, db.proposals[owner], input);
       i < |m.nodes| && id in db.nodes && m.nodes[i].id == id && m.nodes[i].body == db.nodes[id].body
  }

  lemma BuiltSomewhere(codec: Codec, db: Db, id: Id) returns (owner: Id, input: AdmissionInput, i: nat)
    requires Inv(db) && AllExplained(codec, db) && id in db.nodes
    ensures BuiltBy(codec, db, id, owner, input, i)
  {
    assert NodeSound(db, id);
    var d :| d in NodeWriters(db, id, db.nodes[id].origin);
    var bindings := db.manifests[d].nodes;
    i :| 0 <= i < |bindings| && bindings[i].id == id && bindings[i].how.Materialized?;
    input := BoundRowBuilt(codec, db, d, i);
    owner := input.proposal;
  }

  lemma BoundRowBuilt(codec: Codec, db: Db, d: Id, i: nat) returns (input: AdmissionInput)
    requires AllExplained(codec, db) && d in db.manifests && i < |db.manifests[d].nodes|
    ensures BuiltBy(codec, db, db.manifests[d].nodes[i].id, input.proposal, input, i)
  {
    assert Explained(codec, db, d);
    input :| WrittenFor(codec, db, d, input);
    assert NodeBindingHolds(db, Build(codec, db.proposals[input.proposal], input), db.manifests[d].nodes[i], i);
  }

  /** No stored text or encoding holds a NUL, which the database cannot store. */
  ghost predicate NulFreeTexts(codec: Codec, db: Db) {
    forall x :: x in db.proposals ==> NulFree(db.proposals[x].statement) && NulFree(Encoded(codec, db.proposals[x]))
  }

  lemma ClaimOnlyFirst(codec: Codec, p: Proposal, input: AdmissionInput, i: nat)
    requires Buildable(p, input) && i < |Build(codec, p, input).nodes|
    requires Build(codec, p, input).nodes[i].body.kind == SourceClaim
    ensures SourceBackedInput(p, input) && i == 0
  {
    BuiltWellFormed(codec, p, input);
    KindBuilt(codec, p, input);
  }

  /** If a claim's id is taken, the node stored under it is a claim with the same statement up to margins. */
  lemma TakenClaimSaysTheSame(codec: Codec, hash: string -> string, db: Db, p: Proposal, input: AdmissionInput)
    requires Hashed(codec, hash) && Inv(db) && AllExplained(codec, db) && NulFreeTexts(codec, db)
    requires SourceBackedInput(p, input) && NulFree(p.statement) && NulFree(Encoded(codec, p))
    requires Build(codec, p, input).canonicalRef in db.nodes
    ensures var n := db.nodes[Build(codec, p, input).canonicalRef];
            n.body.kind == SourceClaim && TrimSpace(n.body.payload.claim) == TrimSpace(p.statement)
  {
    var id := Build(codec, p, input).canonicalRef;
    var owner, other, i := BuiltSomewhere(codec, db, id);
    var q := db.proposals[owner];
    BuiltNodesNamed(codec, p, input, 0);
    BuiltNodesNamed(codec, q, other, i);
    KindsApart(codec, hash, Build(codec, p, input).nodes[0], Build(codec, q, other).nodes[i]);
    KindBuilt(codec, p, input);
    ClaimOnlyFirst(codec, q, other, i);
    ClaimIdsIdentify(codec, hash, p, q, input, other);
    BuiltSourceRows(codec, q, other);
  }

  /** No stored source claim says what this proposal says. */
  ghost predicate NewStatement(db: Db, p: Proposal) {
    forall id :: id in db.nodes && db.nodes[id].body.kind == SourceClaim ==>
      TrimSpace(db.nodes[id].body.payload.claim) != TrimSpace(p.statement)
  }

  /** A claim with a new statement gets a new id in every reachable store. */
  lemma NewStatementNewClaim(
    codec: Codec, hash: string -> string, steps: seq<Step>, p: Proposal, input: AdmissionInput)
    requires Hashed(codec, hash) && Run(codec, EMPTY, steps) && NulFreeTexts(codec, After(codec, EMPTY, steps))
    requires SourceBackedInput(p, input) && NulFree(p.statement) && NulFree(Encoded(codec, p))
    requires NewStatement(After(codec, EMPTY, steps), p)
    ensures Inv(After(codec, EMPTY, steps))
    ensures Build(codec, p, input).canonicalRef !in After(codec, EMPTY, steps).nodes
  {
    EmptyInv();
    assert AllExplained(codec, EMPTY);
    ExplainedThroughRun(codec, EMPTY, steps);
    if Build(codec, p, input).canonicalRef in After(codec, EMPTY, steps).nodes {
      TakenClaimSaysTheSame(codec, hash, After(codec, EMPTY, steps), p, input);
    }
  }

  /**
   So it is admitted exactly when its spans are different and those that are stored already
   have the content this proposal gives them.
   */
  lemma NewStatementAdmitted(
    codec: Codec, hash: string -> string, steps: seq<Step>, input: AdmissionInput)
    requires Hashed(codec, hash) && Run(codec, EMPTY, steps) && NulFreeTexts(codec, After(codec, EMPTY, steps))
    requires ReadySource(codec, After(codec, EMPTY, steps), input)
    ensures var db := After(codec, EMPTY, steps);
            Enabled(codec, db, Admit(input)) <==> SpansFit(db, Build(codec, db.proposals[input.proposal], input))
  {
    var db := After(codec, EMPTY, steps);
    var p := db.proposals[input.proposal];
    NewStatementNewClaim(codec, hash, steps, p, input);
    AdmissibleExactly(codec, db, input);
    NewClaimFits(codec, db, p, input);
  }

  /** A pending, succeeded, source-backed statement that is new; its decision and edge ids are not taken. */
  ghost predicate ReadySource(codec: Codec, db: Db, input: AdmissionInput) {
    && input.proposal in db.proposals
    && var p := db.proposals[input.proposal];
       && p.outcome.Pending? && p.attempt == "succeeded" && p.kind == "statement"
       && SourceBackedInput(p, input) && NewStatement(db, p)
       && Build(codec, p, input).decision !in db.decisions
       && forall e :: e in Build(codec, p, input).edges ==> e.id !in db.edges
  }

  /** No two rows share an id, and stored raw evidence has the content that is built for it. */
  ghost predicate SpansFit(db: Db, m: Mutation) {
    && RowsDiffer(m)
    && forall i :: 1 <= i < |m.nodes| && m.nodes[i].id in db.nodes ==>
         db.nodes[m.nodes[i].id].body == m.nodes[i].body
  }

  lemma NewClaimFits(codec: Codec, db: Db, p: Proposal, input: AdmissionInput)
    requires EdgesSound(db) && SourceBackedInput(p, input) && Build(codec, p, input).canonicalRef !in db.nodes
    requires forall e :: e in Build(codec, p, input).edges ==> e.id !in db.edges
    ensures var m := Build(codec, p, input); RowsFree(db, m) && DerivationFree(db, m) <==> SpansFit(db, m)
  {
    BuiltSourceRows(codec, p, input);
    NewTargetFits(db, Build(codec, p, input));
  }

  lemma NewTargetFits(db: Db, m: Mutation)
    requires EdgesSound(db) && m.canonicalRef !in db.nodes && m.derivation.None?
    requires m.nodes != [] && m.nodes[0].id == m.canonicalRef
    requires forall i :: 0 <= i < |m.edges| ==> m.edges[i].to == m.canonicalRef
    requires forall e :: e in m.edges ==> e.id !in db.edges
    ensures RowsFree(db, m) && DerivationFree(db, m) <==> SpansFit(db, m)
  {
    forall i | 0 <= i < |m.edges|
      ensures m.edges[i].id !in db.edges
    {
      assert m.edges[i] in m.edges;
    }
    NewTargetEdgesFree(db, m);
  }

  lemma NewTargetEdgesFree(db: Db, m: Mutation)
    requires EdgesSound(db) && m.canonicalRef !in db.nodes
    requires forall i :: 0 <= i < |m.edges| ==> m.edges[i].id !in db.edges && m.edges[i].to == m.canonicalRef
    ensures forall i :: 0 <= i < |m.edges| ==> EdgeFree(db, m.edges[i], m.derivation.None?)
  {
    forall i, id | 0 <= i < |m.edges| && id in db.edges
      ensures id != m.edges[i].id && db.edges[id].to != m.edges[i].to
    {
      assert EdgeSound(db, id);
    }
  }

  // ----- reviewed relations -----

  /** A references or implements edge whose provenance names its ends, its proposal, its request and its receipt. */
  ghost predicate ReviewedEdge(e: Edge, r: Receipt) {
    && (e.relation == References || e.relation == Implements)
    && r.relation == e.relation && r.edge == e.id && r.from == e.from && r.to == e.to && r.origin == e.origin
    && e.provenance.id == "provenance:" + e.id && e.provenance.originRefs == [e.from, e.to, e.origin]
    && e.provenance.originGroup == e.id && e.provenance.producer == "ahe-wrap"
    && e.provenance.methodName ==
       (if e.relation == References then "reviewed_references" else "reviewed_derived_implements")
    && e.provenance.methodVersion == r.version && e.provenance.traceRef == r.request
    && e.provenance.reviewRef == r.receiptId
  }

  /** From the claim its admitted proposal stands for, of the right kind, to a stored source claim. */
  ghost predicate FromAdmittedClaim(db: Db, e: Edge) {
    && e.origin in db.proposals && db.proposals[e.origin].outcome == Admitted
    && db.proposals[e.origin].canonicalRef == e.from
    && e.from in db.nodes && db.nodes[e.from].origin == e.origin
    && (e.relation == References ==> db.nodes[e.from].body.kind == SourceClaim)
    && (e.relation == Implements ==> db.nodes[e.from].body.kind == DerivedClaim)
    && e.to in db.nodes && db.nodes[e.to].body.kind == SourceClaim
  }

  ghost predicate EdgeUnknown(db: Db, e: Edge) {
    && e.id !in db.edges && e.id !in db.receipts
    && forall id :: id in db.edges ==>
         !(db.edges[id].from == e.from && db.edges[id].to == e.to && db.edges[id].relation == e.relation)
  }

  lemma CollidesPlainly(db: Db, e: Edge)
    ensures Colliding(db.edges, e) == {} <==>
            && e.id !in db.edges
            && forall id :: id in db.edges ==>
                 !(db.edges[id].from == e.from && db.edges[id].to == e.to && db.edges[id].relation == e.relation)
  {
    assert forall id :: id in Colliding(db.edges, e) <==> id in db.edges && (id == e.id || db.edges[id].SameTriple(e));
    if Colliding(db.edges, e) == {} {
      forall id | id in db.edges
        ensures id != e.id && !db.edges[id].SameTriple(e)
      {
        assert id !in Colliding(db.edges, e);
      }
    }
  }

  /** A relation is attached exactly under its own matching receipt, off an admitted claim, where nothing collides. */
  lemma AttachedExactly(codec: Codec, db: Db, e: Edge, r: Receipt)
    ensures Enabled(codec, db, Attach(e, r)) <==> ReviewedEdge(e, r) && FromAdmittedClaim(db, e) && EdgeUnknown(db, e)
    ensures Enabled(codec, db, Attach(e, r)) ==>
              var db' := Apply(codec, db, Attach(e, r));
              && db'.edges == db.edges[e.id := e] && db'.receipts == db.receipts[e.id := r]
              && db'.nodes == db.nodes && db'.proposals == db.proposals && db'.decisions == db.decisions
              && db'.manifests == db.manifests && db'.derivations == db.derivations
  {
    CollidesPlainly(db, e);
    assert e.provenance == ReceiptProvenance(r) <==>
           && e.provenance.id == "provenance:" + r.edge && e.provenance.originRefs == [r.from, r.to, r.origin]
           && e.provenance.originGroup == r.edge && e.provenance.producer == "ahe-wrap"
           && e.provenance.methodName ==
              (if r.relation == References then "reviewed_references" else "reviewed_derived_implements")
           && e.provenance.methodVersion == r.version && e.provenance.traceRef == r.request
           && e.provenance.reviewRef == r.receiptId;
  }

  lemma IndependentPlainly(codec: Codec, db: Db, p: Proposal, input: AdmissionInput, e: Edge)
    requires Buildable(p, input) && e.origin == p.id
    ensures Independent(db, Build(codec, p, input), e) <==>
            && e.from == Build(codec, p, input).canonicalRef
            && ((e.relation == References && KindAsked(input) == SourceClaim)
                || (e.relation == Implements && KindAsked(input) == DerivedClaim))
            && e.id in db.receipts && ReviewedEdge(e, db.receipts[e.id])
  {
    var m := Build(codec, p, input);
    BuiltWellFormed(codec, p, input);
    KindBuilt(codec, p, input);
    if e.id in db.receipts {
      CoversPlainly(db.receipts[e.id], e);
    }
    assert KindAsked(input) == SourceClaim ==> m.nodes[0].id == m.canonicalRef;
  }

  lemma CoversPlainly(r: Receipt, e: Edge)
    ensures Covers(r, e) <==> ReviewedEdge(e, r)
  {
  }

  /**
   An extra edge that carries the proposal is tolerated by its replay exactly when it leaves
   the admitted claim as a reviewed relation of the right kind, with its own stored receipt.
   */
  lemma ExtraEdgePlainly(codec: Codec, db: Db, input: AdmissionInput, e: Edge)
    requires ReplayHolds(codec, db, input) && e.id !in db.edges && e.origin == input.proposal
    ensures ReplayHolds(codec, db.(edges := db.edges[e.id := e]), input) <==>
            && e.from == db.proposals[input.proposal].canonicalRef
            && ((e.relation == References && KindAsked(input) == SourceClaim)
                || (e.relation == Implements && KindAsked(input) == DerivedClaim))
            && e.id in db.receipts && ReviewedEdge(e, db.receipts[e.id])
  {
    var p := db.proposals[input.proposal];
    ExtraEdgeDecides(codec, db, input, e);
    IndependentPlainly(codec, db, p, input, e);
    assert p.canonicalRef == Build(codec, p, input).canonicalRef;
  }
}
