/**
 Canonical contradictions: a proposal per unordered pair of nodes, decided once, and an
 edge exactly for the admitted ones.
 */
module Contradictions {
  import opened Outcomes
  import opened Ordering
  import opened Identity

  type Id = string

  datatype Input = Input(
    request: Id, nodeA: Id, nodeB: Id, rationale: string, producer: string, version: string, session: string)

  datatype Outcome = Pending | Admitted | Rejected | AuditOnly

  datatype Proposal = Proposal(
    id: Id, request: Id, payloadHash: string, nodeA: Id, nodeB: Id, outcome: Outcome, edge: Id)

  /** `origin` is the contradiction proposal, or empty for every other kind of edge. */
  datatype Edge = Edge(id: Id, from: Id, to: Id, relation: string, origin: Id, review: Id)

  datatype Decision = Decision(id: Id, proposal: Id, outcome: Outcome, edge: Id, decider: string, reason: string)

  datatype Error = Invalid | NotFound | Conflict | StateConflict | SqlError

  const CONTRADICTS := "contradicts"
  const NO_EDGE: Id := ""

  /** Identities, of which nothing is assumed except that they are not empty. */
  datatype Codec = Codec(
    proposalId: (Id, Id) -> Id, payloadHash: Input -> string, edgeId: (Id, Id) -> Id, decisionId: (Id, Outcome) -> Id)
  {
    ghost predicate Usable() {
      && (forall a, b :: edgeId(a, b) != NO_EDGE)
      && (forall a, b :: proposalId(a, b) != "")
    }
  }

  // ----- one request -----

  function Trim(input: Input): Input {
    Input(TrimSpace(input.request), TrimSpace(input.nodeA), TrimSpace(input.nodeB), TrimSpace(input.rationale),
          TrimSpace(input.producer), TrimSpace(input.version), TrimSpace(input.session))
  }

  predicate Acceptable(input: Input) {
    && input.request != "" && HasNodePrefix(input.nodeA) && HasNodePrefix(input.nodeB) && input.nodeA != input.nodeB
    && input.rationale != "" && input.producer != "" && input.version != ""
  }

  /** The smaller node id first; the request itself is not part of what is hashed. */
  function Ordered(input: Input): Input {
    if Less(input.nodeB, input.nodeA) then input.(nodeA := input.nodeB, nodeB := input.nodeA) else input
  }

  function Content(input: Input): Input {
    input.(request := "")
  }

  function Prepared(codec: Codec, input: Input): Proposal {
    var o := Ordered(Trim(input));
    Proposal(codec.proposalId(o.nodeA, o.nodeB), o.request, codec.payloadHash(Content(o)), o.nodeA, o.nodeB, Pending,
             NO_EDGE)
  }

  /** Swapping the endpoints asks for the same proposal. */
  lemma SwapIrrelevant(codec: Codec, input: Input)
    requires Acceptable(Trim(input))
    ensures Prepared(codec, input.(nodeA := input.nodeB, nodeB := input.nodeA)) == Prepared(codec, input)
    ensures Less(Prepared(codec, input).nodeA, Prepared(codec, input).nodeB)
  {
    var a, b := TrimSpace(input.nodeA), TrimSpace(input.nodeB);
    LeqTotal(a, b);
    if Leq(a, b) && Leq(b, a) {
      LeqAntisymmetric(a, b);
    }
  }

  // ----- the store -----

  datatype Db = Db(nodes: set<Id>, proposals: map<Id, Proposal>, edges: map<Id, Edge>, decisions: map<Id, Decision>)

  predicate Clash(p: Proposal, q: Proposal) {
    p.id == q.id || p.request == q.request || (p.nodeA == q.nodeA && p.nodeB == q.nodeB)
  }

  function Clashing(db: Db, p: Proposal): set<Id> {
    set id | id in db.proposals && Clash(db.proposals[id], p)
  }

  function ByRequest(db: Db, p: Proposal): set<Id> {
    set id | id in db.proposals && db.proposals[id].request == p.request
  }

  function ByPair(db: Db, p: Proposal): set<Id> {
    set id | id in db.proposals && db.proposals[id].nodeA == p.nodeA && db.proposals[id].nodeB == p.nodeB
  }

  ghost predicate ProposalSound(db: Db, id: Id)
    requires id in db.proposals
  {
    var p := db.proposals[id];
    && p.id == id && Less(p.nodeA, p.nodeB) && p.nodeA in db.nodes && p.nodeB in db.nodes
    && Clashing(db, p) == {id}
    && (p.edge != NO_EDGE <==> p.outcome.Admitted?)
    && (p.outcome.Admitted? ==> p.edge in db.edges && db.edges[p.edge].origin == id)
    && (if p.outcome.Pending? then DecisionsOf(db, id) == {} else |DecisionsOf(db, id)| == 1)
  }

  function DecisionsOf(db: Db, proposal: Id): set<Id> {
    set d | d in db.decisions && db.decisions[d].proposal == proposal
  }

  ghost predicate DecisionSound(db: Db, d: Id)
    requires d in db.decisions
  {
    var dec := db.decisions[d];
    && dec.proposal in db.proposals && dec.outcome == db.proposals[dec.proposal].outcome && !dec.outcome.Pending?
    && dec.edge == db.proposals[dec.proposal].edge
  }

  ghost predicate EdgeSound(db: Db, id: Id)
    requires id in db.edges
  {
    var e := db.edges[id];
    && e.id == id && id != NO_EDGE
    && (e.relation == CONTRADICTS ==>
          e.origin in db.proposals && db.proposals[e.origin].edge == id
          && e.from == db.proposals[e.origin].nodeA && e.to == db.proposals[e.origin].nodeB)
    && (e.relation != CONTRADICTS ==> e.origin == "")
  }

  ghost predicate Inv(db: Db) {
    && "" !in db.proposals
    && (forall id :: id in db.proposals ==> ProposalSound(db, id))
    && (forall d :: d in db.decisions ==> DecisionSound(db, d))
    && (forall id :: id in db.edges ==> EdgeSound(db, id))
  }

  lemma OneOfPair(db: Db, p: Id, q: Id)
    requires Inv(db) && p in db.proposals && q in db.proposals
    requires {db.proposals[p].nodeA, db.proposals[p].nodeB} == {db.proposals[q].nodeA, db.proposals[q].nodeB}
    ensures p == q
  {
    assert ProposalSound(db, p) && ProposalSound(db, q);
    var a, b := db.proposals[p].nodeA, db.proposals[p].nodeB;
    var c, d := db.proposals[q].nodeA, db.proposals[q].nodeB;
    assert a in {c, d} && b in {c, d} && c in {a, b} && d in {a, b};
    if a != c {
      LeqAntisymmetric(a, b);
      assert false;
    }
    assert q in Clashing(db, db.proposals[p]);
  }

  lemma OneDecisionIfTerminal(db: Db, p: Id)
    requires Inv(db) && p in db.proposals
    ensures !db.proposals[p].outcome.Pending? <==> |DecisionsOf(db, p)| == 1
    ensures forall d :: d in DecisionsOf(db, p) ==>
              db.decisions[d].outcome == db.proposals[p].outcome && db.decisions[d].edge == db.proposals[p].edge
  {
    assert ProposalSound(db, p);
    forall d | d in DecisionsOf(db, p)
      ensures db.decisions[d].outcome == db.proposals[p].outcome && db.decisions[d].edge == db.proposals[p].edge
    {
      assert DecisionSound(db, d);
    }
  }

  /** A contradicts edge between the two nodes, in either direction. */
  predicate JoinsPair(db: Db, p: Id, id: Id)
    requires p in db.proposals
  {
    && id in db.edges && db.edges[id].relation == CONTRADICTS
    && {db.edges[id].from, db.edges[id].to} == {db.proposals[p].nodeA, db.proposals[p].nodeB}
  }

  /** The proposal's own edge, from the smaller node to the larger. */
  predicate OwnEdge(db: Db, p: Id, id: Id)
    requires p in db.proposals && id in db.edges
  {
    && id == db.proposals[p].edge && db.edges[id].origin == p
    && db.edges[id].from == db.proposals[p].nodeA && db.edges[id].to == db.proposals[p].nodeB
  }

  lemma EdgeIfAdmitted(db: Db, p: Id)
    requires Inv(db) && p in db.proposals
    ensures db.proposals[p].outcome.Admitted? <==> exists id :: JoinsPair(db, p, id)
    ensures forall id :: JoinsPair(db, p, id) ==> OwnEdge(db, p, id)
  {
    assert ProposalSound(db, p);
    if db.proposals[p].outcome.Admitted? {
      var e := db.proposals[p].edge;
      assert EdgeSound(db, e);
      assert JoinsPair(db, p, e);
    }
    forall id | JoinsPair(db, p, id)
      ensures db.proposals[p].outcome.Admitted? && OwnEdge(db, p, id)
    {
      assert EdgeSound(db, id);
      OneOfPair(db, db.edges[id].origin, p);
    }
  }

  // ----- the transactions -----

  /** Where a submission that meets an existing row looks: its request first, then its pair. */
  function Existing(db: Db, p: Proposal): set<Id> {
    if ByRequest(db, p) != {} then ByRequest(db, p) else ByPair(db, p)
  }

  predicate Submittable(db: Db, p: Proposal) {
    p.nodeA in db.nodes && p.nodeB in db.nodes
  }

  function AfterSubmit(db: Db, p: Proposal): Db {
    if Clashing(db, p) == {} then db.(proposals := db.proposals[p.id := p]) else db
  }

  function EdgeFor(codec: Codec, p: Proposal): Edge {
    Edge(codec.edgeId(p.nodeA, p.nodeB), p.nodeA, p.nodeB, CONTRADICTS, p.id, codec.decisionId(p.id, Admitted))
  }

  /** Rows that share the edge's id, its ends and relation, or its proposal. */
  function EdgeClashes(db: Db, e: Edge): set<Id> {
    set id | id in db.edges
             && (id == e.id || db.edges[id].origin == e.origin
                 || (db.edges[id].from == e.from && db.edges[id].to == e.to && db.edges[id].relation == e.relation))
  }

  function AfterDecision(codec: Codec, db: Db, p: Proposal, outcome: Outcome, decider: string, reason: string): Db {
    var edge := if outcome.Admitted? then EdgeFor(codec, p).id else NO_EDGE;
    var id := codec.decisionId(p.id, outcome);
    db.(proposals := db.proposals[p.id := p.(outcome := outcome, edge := edge)],
        edges := if outcome.Admitted? then db.edges[edge := EdgeFor(codec, p)] else db.edges,
        decisions := db.decisions[id := Decision(id, p.id, outcome, edge, decider, reason)])
  }

  lemma SubmitInv(db: Db, p: Proposal)
    requires Inv(db) && Submittable(db, p) && p.outcome.Pending? && p.edge == NO_EDGE && p.id != ""
             && Less(p.nodeA, p.nodeB)
    ensures Inv(AfterSubmit(db, p))
  {
    if Clashing(db, p) == {} {
      var db' := AfterSubmit(db, p);
      forall id | id in db.proposals
        ensures id != p.id && !Clash(db.proposals[id], p)
      {
        assert ProposalSound(db, id);
        assert id !in Clashing(db, p);
      }
      forall id | id in db'.proposals
        ensures ProposalSound(db', id)
      {
        if id != p.id {
          assert ProposalSound(db, id);
          assert Clashing(db', db'.proposals[id]) == Clashing(db, db.proposals[id]);
        } else {
          assert Clashing(db', p) == {p.id};
          UndecidedNewcomer(db, p.id);
        }
        assert DecisionsOf(db', id) == DecisionsOf(db, id);
      }
      forall d | d in db'.decisions
        ensures DecisionSound(db', d)
      {
        assert DecisionSound(db, d);
      }
      forall id | id in db'.edges
        ensures EdgeSound(db', id)
      {
        assert EdgeSound(db, id);
      }
    }
  }

  lemma UndecidedNewcomer(db: Db, id: Id)
    requires Inv(db) && id !in db.proposals
    ensures DecisionsOf(db, id) == {}
  {
    forall d | d in db.decisions
      ensures db.decisions[d].proposal != id
    {
      assert DecisionSound(db, d);
    }
  }

  ghost predicate Decidable(codec: Codec, db: Db, p: Proposal, outcome: Outcome) {
    && p.id in db.proposals && db.proposals[p.id] == p && p.outcome.Pending? && !outcome.Pending?
    && codec.decisionId(p.id, outcome) !in db.decisions
    && (outcome.Admitted? ==> EdgeClashes(db, EdgeFor(codec, p)) == {})
  }

  lemma DecidedClashes(codec: Codec, db: Db, p: Proposal, outcome: Outcome, decider: string, reason: string, id: Id)
    requires Decidable(codec, db, p, outcome) && id in db.proposals
    ensures var db' := AfterDecision(codec, db, p, outcome, decider, reason);
            Clashing(db', db'.proposals[id]) == Clashing(db, db.proposals[id])
  {
  }

  /** The decided proposal has its one decision, and its edge when admitted. */
  lemma DecidedOwnSound(codec: Codec, db: Db, p: Proposal, outcome: Outcome, decider: string, reason: string)
    requires codec.Usable() && Inv(db) && Decidable(codec, db, p, outcome)
    ensures ProposalSound(AfterDecision(codec, db, p, outcome, decider, reason), p.id)
  {
    var db' := AfterDecision(codec, db, p, outcome, decider, reason);
    assert ProposalSound(db, p.id);
    DecidedClashes(codec, db, p, outcome, decider, reason, p.id);
    OneDecisionMade(codec, db, p, outcome, decider, reason);
  }

  lemma OneDecisionMade(codec: Codec, db: Db, p: Proposal, outcome: Outcome, decider: string, reason: string)
    requires Decidable(codec, db, p, outcome) && DecisionsOf(db, p.id) == {}
    ensures DecisionsOf(AfterDecision(codec, db, p, outcome, decider, reason), p.id) ==
            {codec.decisionId(p.id, outcome)}
  {
    forall d | d in db.decisions
      ensures db.decisions[d].proposal != p.id
    {
      assert d !in DecisionsOf(db, p.id);
    }
  }

  lemma DecidedOtherSound(
    codec: Codec, db: Db, p: Proposal, outcome: Outcome, decider: string, reason: string, id: Id)
    requires Inv(db) && Decidable(codec, db, p, outcome) && id in db.proposals && id != p.id
    ensures ProposalSound(AfterDecision(codec, db, p, outcome, decider, reason), id)
  {
    var db' := AfterDecision(codec, db, p, outcome, decider, reason);
    assert ProposalSound(db, id);
    DecidedClashes(codec, db, p, outcome, decider, reason, id);
    assert DecisionsOf(db', id) == DecisionsOf(db, id);
    if outcome.Admitted? && db.proposals[id].outcome.Admitted? {
      assert EdgeFor(codec, p).id !in EdgeClashes(db, EdgeFor(codec, p));
    }
  }

  lemma DecidedRecordsSound(codec: Codec, db: Db, p: Proposal, outcome: Outcome, decider: string, reason: string)
    requires codec.Usable() && Inv(db) && Decidable(codec, db, p, outcome)
    ensures var db' := AfterDecision(codec, db, p, outcome, decider, reason);
            && (forall d :: d in db'.decisions ==> DecisionSound(db', d))
            && (forall id :: id in db'.edges ==> EdgeSound(db', id))
  {
    var db' := AfterDecision(codec, db, p, outcome, decider, reason);
    assert ProposalSound(db, p.id);
    forall d | d in db'.decisions
      ensures DecisionSound(db', d)
    {
      if d in db.decisions {
        assert DecisionSound(db, d) && d !in DecisionsOf(db, p.id);
      }
    }
    forall id | id in db'.edges
      ensures EdgeSound(db', id)
    {
      if id in db.edges {
        assert EdgeSound(db, id);
        assert outcome.Admitted? ==> id !in EdgeClashes(db, EdgeFor(codec, p));
      }
    }
  }

  lemma DecideInv(codec: Codec, db: Db, p: Proposal, outcome: Outcome, decider: string, reason: string)
    requires codec.Usable() && Inv(db) && Decidable(codec, db, p, outcome)
    ensures Inv(AfterDecision(codec, db, p, outcome, decider, reason))
  {
    forall id | id in db.proposals
      ensures ProposalSound(AfterDecision(codec, db, p, outcome, decider, reason), id)
    {
      if id == p.id {
        DecidedOwnSound(codec, db, p, outcome, decider, reason);
      } else {
        DecidedOtherSound(codec, db, p, outcome, decider, reason, id);
      }
    }
    DecidedRecordsSound(codec, db, p, outcome, decider, reason);
  }

  // ----- every writer -----

  datatype Step =
    | Submitted(given: Input)
    | Decided(proposal: Id, outcome: Outcome, decider: string, reason: string)
    | OtherNodes(ids: set<Id>)
    | OtherEdge(e: Edge)

  /** Another writer's edge: not a contradiction, so without such an origin, and not clashing with a stored row. */
  predicate Foreign(db: Db, e: Edge) {
    && e.id != NO_EDGE && e.relation != CONTRADICTS && e.origin == "" && e.id !in db.edges
    && forall id :: id in db.edges ==>
         !(db.edges[id].from == e.from && db.edges[id].to == e.to && db.edges[id].relation == e.relation)
  }

  ghost predicate Enabled(codec: Codec, db: Db, step: Step) {
    match step
    case Submitted(given) => Acceptable(Trim(given)) && Submittable(db, Prepared(codec, given))
    case Decided(proposal, outcome, _, _) =>
      proposal in db.proposals && Decidable(codec, db, db.proposals[proposal], outcome)
    case OtherNodes(_) => true
    case OtherEdge(e) => Foreign(db, e)
  }

  function Apply(codec: Codec, db: Db, step: Step): Db
    requires step.Decided? ==> step.proposal in db.proposals
  {
    match step
    case Submitted(given) => AfterSubmit(db, Prepared(codec, given))
    case Decided(proposal, outcome, decider, reason) =>
      AfterDecision(codec, db, db.proposals[proposal], outcome, decider, reason)
    case OtherNodes(ids) => db.(nodes := db.nodes + ids)
    case OtherEdge(e) => db.(edges := db.edges[e.id := e])
  }

  /** Rows a later store still has. */
  ghost predicate Grown(db: Db, db': Db) {
    && db.nodes <= db'.nodes && db'.proposals == db.proposals && db'.decisions == db.decisions
    && (forall id :: id in db.edges ==> id in db'.edges && db'.edges[id] == db.edges[id])
    && (forall id :: id in db'.edges && id !in db.edges ==> db'.edges[id].id == id && Foreign(db, db'.edges[id]))
  }

  lemma GrownInv(db: Db, db': Db)
    requires Inv(db) && Grown(db, db')
    ensures Inv(db')
  {
    forall id | id in db'.proposals
      ensures ProposalSound(db', id)
    {
      assert ProposalSound(db, id);
      assert Clashing(db', db'.proposals[id]) == Clashing(db, db.proposals[id]);
      assert DecisionsOf(db', id) == DecisionsOf(db, id);
    }
    forall d | d in db'.decisions
      ensures DecisionSound(db', d)
    {
      assert DecisionSound(db, d);
    }
    forall id | id in db'.edges
      ensures EdgeSound(db', id)
    {
      if id in db.edges {
        assert EdgeSound(db, id);
      }
    }
  }

  lemma StepInv(codec: Codec, db: Db, step: Step)
    requires codec.Usable() && Inv(db) && Enabled(codec, db, step)
    ensures Inv(Apply(codec, db, step))
  {
    match step
    case Submitted(given) =>
      SwapIrrelevant(codec, given);
      SubmitInv(db, Prepared(codec, given));
    case Decided(proposal, outcome, decider, reason) =>
      DecideInv(codec, db, db.proposals[proposal], outcome, decider, reason);
    case OtherNodes(ids) => GrownInv(db, Apply(codec, db, step));
    case OtherEdge(e) => GrownInv(db, Apply(codec, db, step));
  }

  const EMPTY := Db({}, map[], map[], map[])

  ghost predicate Run(codec: Codec, db: Db, steps: seq<Step>)
    decreases |steps|
  {
    steps == [] || (Enabled(codec, db, steps[0]) && Run(codec, Apply(codec, db, steps[0]), steps[1..]))
  }

  ghost function After(codec: Codec, db: Db, steps: seq<Step>): Db
    requires Run(codec, db, steps)
    decreases |steps|
  {
    if steps == [] then db else After(codec, Apply(codec, db, steps[0]), steps[1..])
  }

  lemma {:induction false} RunInv(codec: Codec, db: Db, steps: seq<Step>)
    requires codec.Usable() && Inv(db) && Run(codec, db, steps)
    ensures Inv(After(codec, db, steps))
    decreases |steps|
  {
    if steps != [] {
      StepInv(codec, db, steps[0]);
      RunInv(codec, Apply(codec, db, steps[0]), steps[1..]);
    }
  }

  /** After every run there is at most one proposal per unordered pair. */
  lemma OnePerPair(codec: Codec, steps: seq<Step>, p: Id, q: Id)
    requires codec.Usable() && Run(codec, EMPTY, steps)
    requires var db := After(codec, EMPTY, steps);
             && p in db.proposals && q in db.proposals
             && {db.proposals[p].nodeA, db.proposals[p].nodeB} == {db.proposals[q].nodeA, db.proposals[q].nodeB}
    ensures p == q
  {
    RunInv(codec, EMPTY, steps);
    OneOfPair(After(codec, EMPTY, steps), p, q);
  }

  /** After every run a proposal is terminal exactly when it has one decision, with its outcome and its edge. */
  lemma TerminalMeansDecided(codec: Codec, steps: seq<Step>, p: Id)
    requires codec.Usable() && Run(codec, EMPTY, steps) && p in After(codec, EMPTY, steps).proposals
    ensures var db := After(codec, EMPTY, steps);
            && (!db.proposals[p].outcome.Pending? <==> |DecisionsOf(db, p)| == 1)
            && (db.proposals[p].outcome.Pending? <==> DecisionsOf(db, p) == {})
            && forall d :: d in DecisionsOf(db, p) ==>
                 db.decisions[d].outcome == db.proposals[p].outcome && db.decisions[d].edge == db.proposals[p].edge
  {
    RunInv(codec, EMPTY, steps);
    var db := After(codec, EMPTY, steps);
    OneDecisionIfTerminal(db, p);
    assert ProposalSound(db, p);
  }

  /**
   After every run a contradicts edge joins the pair, in either direction, exactly when its
   proposal is admitted; it is that proposal's own edge, from the smaller node to the larger.
   */
  lemma EdgeMeansAdmitted(codec: Codec, steps: seq<Step>, p: Id)
    requires codec.Usable() && Run(codec, EMPTY, steps) && p in After(codec, EMPTY, steps).proposals
    ensures var db := After(codec, EMPTY, steps);
            && (db.proposals[p].outcome.Admitted? <==> exists id :: JoinsPair(db, p, id))
            && forall id :: JoinsPair(db, p, id) ==> OwnEdge(db, p, id)
  {
    RunInv(codec, EMPTY, steps);
    EdgeIfAdmitted(After(codec, EMPTY, steps), p);
  }

  /** What the two decision transactions report as an inconsistent state or a missing endpoint. */
  ghost predicate Inconsistent(db: Db, p: Id)
    requires p in db.proposals
  {
    var proposal := db.proposals[p];
    || proposal.nodeA !in db.nodes || proposal.nodeB !in db.nodes
    || (!proposal.outcome.Pending? && |DecisionsOf(db, p)| != 1)
    || (!proposal.outcome.Pending?
        && exists d :: d in DecisionsOf(db, p)
                       && (db.decisions[d].outcome != proposal.outcome
                           || (db.decisions[d].edge != NO_EDGE) != proposal.outcome.Admitted?))
  }

  /** No run leads to a state in which those branches are taken. */
  lemma NeverInconsistent(codec: Codec, steps: seq<Step>, p: Id)
    requires codec.Usable() && Run(codec, EMPTY, steps) && p in After(codec, EMPTY, steps).proposals
    ensures !Inconsistent(After(codec, EMPTY, steps), p)
  {
    TerminalMeansDecided(codec, steps, p);
    RunInv(codec, EMPTY, steps);
    assert ProposalSound(After(codec, EMPTY, steps), p);
  }

  /** The proposal, its decision and its edge as they are now. */
  ghost predicate SettledAs(db: Db, p: Proposal, decision: Decision) {
    && p.id in db.proposals && db.proposals[p.id] == p && !p.outcome.Pending?
    && decision.id in db.decisions && db.decisions[decision.id] == decision && decision.proposal == p.id
    && (p.outcome.Admitted? ==> p.edge in db.edges && db.edges[p.edge].origin == p.id)
  }

  /** A decided proposal keeps its outcome, its decision and its edge, whatever is written later. */
  lemma {:induction false} DecidedForever(codec: Codec, db: Db, steps: seq<Step>, p: Proposal, decision: Decision)
    requires codec.Usable() && Inv(db) && Run(codec, db, steps) && SettledAs(db, p, decision)
    ensures SettledAs(After(codec, db, steps), p, decision)
    decreases |steps|
  {
    if steps != [] {
      StepInv(codec, db, steps[0]);
      SettledThroughStep(codec, db, steps[0], p, decision);
      DecidedForever(codec, Apply(codec, db, steps[0]), steps[1..], p, decision);
    }
  }

  lemma SettledThroughStep(codec: Codec, db: Db, step: Step, p: Proposal, decision: Decision)
    requires codec.Usable() && Inv(db) && Enabled(codec, db, step) && SettledAs(db, p, decision)
    ensures SettledAs(Apply(codec, db, step), p, decision)
  {
    if step.Submitted? {
      var q := Prepared(codec, step.given);
      if Clashing(db, q) == {} {
        NoClashMeansNew(db, q);
      }
    }
    if step.Decided? {
      var q := db.proposals[step.proposal];
      assert q.id != p.id;
      if step.outcome.Admitted? && p.outcome.Admitted? {
        assert EdgeFor(codec, q).id !in EdgeClashes(db, EdgeFor(codec, q));
      }
    }
  }

  // ----- the store as an object -----

  /** What a repeated decision is compared with: the one decision of the proposal. */
  ghost predicate SameAudit(db: Db, p: Id, decider: string, reason: string) {
    exists d :: d in DecisionsOf(db, p) && db.decisions[d].decider == decider && db.decisions[d].reason == reason
  }

  class ContradictionStore {
    const codec: Codec
    var db: Db

    constructor (codec: Codec)
      ensures this.codec == codec && db == EMPTY && Inv(db)
    {
      this.codec := codec;
      db := EMPTY;
    }

    /** Another writer's nodes. */
    method AddNodes(ids: set<Id>)
      requires Inv(db)
      modifies this
      ensures Inv(db) && db == Apply(codec, old(db), OtherNodes(ids))
    {
      GrownInv(db, db.(nodes := db.nodes + ids));
      db := db.(nodes := db.nodes + ids);
    }

    /** Another writer's edge; the unique keys and the origin check of the table refuse the rest. */
    method AddEdge(e: Edge) returns (ok: bool)
      requires Inv(db)
      modifies this
      ensures Inv(db) && (ok <==> Foreign(old(db), e))
      ensures db == if ok then Apply(codec, old(db), OtherEdge(e)) else old(db)
    {
      ok := Foreign(db, e);
      if ok {
        GrownInv(db, db.(edges := db.edges[e.id := e]));
        db := db.(edges := db.edges[e.id := e]);
      }
    }

    /** Inserts a pending proposal, or answers with the stored one when its content is the same. */
    method Submit(given: Input) returns (r: Result<(Proposal, bool), Error>)
      requires Inv(db) && codec.Usable()
      modifies this
      ensures Inv(db)
      ensures var p := Prepared(codec, given); var was := old(db);
              r.Ok? <==>
              && Acceptable(Trim(given)) && Submittable(was, p)
              && (Clashing(was, p) != {} ==>
                    exists id :: id in Existing(was, p) && was.proposals[id].payloadHash == p.payloadHash)
      ensures r.Err? ==> db == old(db)
      ensures r.Ok? ==> db == AfterSubmit(old(db), Prepared(codec, given))
      ensures r.Ok? ==> r.value.0.id in db.proposals && db.proposals[r.value.0.id] == r.value.0
      ensures r.Ok? ==> (r.value.1 <==> db == old(db)) && r.value.0.payloadHash == Prepared(codec, given).payloadHash
    {
      if !Acceptable(Trim(given)) {
        return Err(Invalid);
      }
      SwapIrrelevant(codec, given);
      var p := Prepared(codec, given);
      if !Submittable(db, p) {
        return Err(NotFound);
      }
      SubmitInv(db, p);
      ghost var was := db;
      if Clashing(db, p) == {} {
        NoClashMeansNew(db, p);
        db := db.(proposals := db.proposals[p.id := p]);
        return Ok((p, false));
      }
      var existing := Existing(db, p);
      if existing == {} {
        return Err(NotFound);
      }
      var id :| id in existing;
      OneExisting(db, p, id);
      if db.proposals[id].payloadHash != p.payloadHash {
        return Err(Conflict);
      }
      assert ProposalSound(db, id);
      return Ok((db.proposals[id], true));
    }

    /**
     Admits a pending proposal with its edge, or replays. Once admitted, only different audit
     metadata is refused: the stored decision and edge are never inconsistent.
     */
    method Admit(id: Id, decider: string, reason: string) returns (r: Result<bool, Error>)
      requires Inv(db) && codec.Usable()
      modifies this
      ensures Inv(db)
      ensures r.Err? ==> db == old(db)
      ensures id !in old(db).proposals ==> r.Err?
      ensures id in old(db).proposals ==>
                var p := old(db).proposals[id];
                match p.outcome
                case Pending =>
                  && (r.Ok? <==> Decidable(codec, old(db), p, Admitted))
                  && (r.Ok? ==> r.value == false && db == AfterDecision(codec, old(db), p, Admitted, decider, reason))
                case Admitted => db == old(db) && (r.Ok? <==> SameAudit(db, id, decider, reason)) && (r.Ok? ==> r.value)
                case _ => r.Err?
    {
      if id !in db.proposals {
        return Err(NotFound);
      }
      r := Decide(id, Admitted, decider, reason);
    }

    method Dispose(id: Id, outcome: Outcome, decider: string, reason: string) returns (r: Result<bool, Error>)
      requires Inv(db) && codec.Usable()
      modifies this
      ensures Inv(db)
      ensures r.Err? ==> db == old(db)
      ensures !(outcome.Rejected? || outcome.AuditOnly?) || id !in old(db).proposals ==> r.Err?
      ensures (outcome.Rejected? || outcome.AuditOnly?) && id in old(db).proposals ==>
                var p := old(db).proposals[id];
                if p.outcome.Pending? then
                  && (r.Ok? <==> Decidable(codec, old(db), p, outcome))
                  && (r.Ok? ==> r.value == false && db == AfterDecision(codec, old(db), p, outcome, decider, reason))
                else
                  db == old(db) && (r.Ok? <==> p.outcome == outcome && SameAudit(db, id, decider, reason))
                  && (r.Ok? ==> r.value)
    {
      if !(outcome.Rejected? || outcome.AuditOnly?) {
        return Err(Invalid);
      }
      if id !in db.proposals {
        return Err(NotFound);
      }
      r := Decide(id, outcome, decider, reason);
    }

    /** The shared body: replay of the same outcome, refusal of another, or the decision itself. */
    method Decide(id: Id, outcome: Outcome, decider: string, reason: string) returns (r: Result<bool, Error>)
      requires Inv(db) && codec.Usable() && id in db.proposals && !outcome.Pending?
      modifies this
      ensures Inv(db)
      ensures r.Err? ==> db == old(db)
      ensures var p := old(db).proposals[id];
              if p.outcome.Pending? then
                && (r.Ok? <==> Decidable(codec, old(db), p, outcome))
                && (r.Ok? ==> r.value == false && db == AfterDecision(codec, old(db), p, outcome, decider, reason))
              else
                db == old(db) && (r.Ok? <==> p.outcome == outcome && SameAudit(db, id, decider, reason))
                && (r.Ok? ==> r.value)
    {
      var p := db.proposals[id];
      assert ProposalSound(db, id);
      if !p.outcome.Pending? {
        if p.outcome != outcome {
          return Err(StateConflict);
        }
        OneDecisionIfTerminal(db, id);
        var decisions := DecisionsOf(db, id);
        OneDecision(decisions);
        var d :| d in decisions;
        var decision := db.decisions[d];
        if decision.outcome != outcome || (decision.edge != NO_EDGE) != outcome.Admitted? {
          assert false;
        }
        if decision.decider != decider || decision.reason != reason {
          return Err(StateConflict);
        }
        return Ok(true);
      }
      if codec.decisionId(p.id, outcome) in db.decisions
         || (outcome.Admitted? && EdgeClashes(db, EdgeFor(codec, p)) != {}) {
        return Err(SqlError);
      }
      DecideInv(codec, db, p, outcome, decider, reason);
      db := AfterDecision(codec, db, p, outcome, decider, reason);
      return Ok(false);
    }
  }

  lemma NoClashMeansNew(db: Db, p: Proposal)
    requires Inv(db) && Clashing(db, p) == {}
    ensures p.id !in db.proposals
  {
    forall id | id in db.proposals
      ensures id != p.id
    {
      assert ProposalSound(db, id);
      assert id !in Clashing(db, p);
    }
  }

  lemma OneDecision(decisions: set<Id>)
    requires |decisions| == 1
    ensures forall d, e :: d in decisions && e in decisions ==> d == e
  {
    var d :| d in decisions;
    SameSizeSubset({d}, decisions);
  }

  /** The lookup of an existing proposal never has a choice. */
  lemma OneExisting(db: Db, p: Proposal, id: Id)
    requires Inv(db) && id in Existing(db, p)
    ensures Existing(db, p) == {id}
  {
    assert ProposalSound(db, id);
    forall q | q in Existing(db, p)
      ensures q == id
    {
      assert q in Clashing(db, db.proposals[id]);
    }
  }
}
