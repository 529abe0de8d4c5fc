/** Contradiction proposals field by field: what a request asks for, what it meets, and what a decision writes. */
module PlainContradictions {
  import opened Outcomes
  import opened Ordering
  import opened Identity
  import opened Contradictions

  // ----- the request -----

  /** Two different nodes, and a request id, rationale and producer that are not blank. */
  lemma AcceptablePlainly(input: Input)
    ensures Acceptable(Trim(input)) <==>
            && TrimSpace(input.request) != "" && TrimSpace(input.rationale) != ""
            && TrimSpace(input.producer) != "" && TrimSpace(input.version) != ""
            && "canon-node:" <= TrimSpace(input.nodeA) && "canon-node:" <= TrimSpace(input.nodeB)
            && TrimSpace(input.nodeA) != TrimSpace(input.nodeB)
  {
  }

  /** The same two nodes, whichever is named first. */
  ghost predicate SamePair(input: Input, input': Input) {
    {TrimSpace(input.nodeA), TrimSpace(input.nodeB)} == {TrimSpace(input'.nodeA), TrimSpace(input'.nodeB)}
  }

  ghost predicate SameTexts(input: Input, input': Input) {
    && TrimSpace(input.rationale) == TrimSpace(input'.rationale)
    && TrimSpace(input.producer) == TrimSpace(input'.producer)
    && TrimSpace(input.version) == TrimSpace(input'.version)
    && TrimSpace(input.session) == TrimSpace(input'.session)
  }

  /** The pending proposal over the two nodes, the smaller first. */
  lemma PreparedPlainly(codec: Codec, input: Input)
    requires Acceptable(Trim(input))
    ensures var p := Prepared(codec, input);
            && p.request == TrimSpace(input.request) && p.outcome == Pending && p.edge == ""
            && {p.nodeA, p.nodeB} == {TrimSpace(input.nodeA), TrimSpace(input.nodeB)} && Less(p.nodeA, p.nodeB)
            && p.id == codec.proposalId(p.nodeA, p.nodeB)
  {
    SwapIrrelevant(codec, input);
  }

  lemma OnePairOrder(a: Id, b: Id, c: Id, d: Id)
    requires Less(a, b) && Less(c, d)
    ensures {a, b} == {c, d} <==> a == c && b == d
  {
    if {a, b} == {c, d} {
      assert a in {c, d} && b in {c, d} && c in {a, b} && d in {a, b};
      if a == d {
        LeqAntisymmetric(a, b);
      }
    }
  }

  /**
   With hashes that do not collide, two requests share a proposal id exactly when they name
   the same pair, and a content hash exactly when they also agree in every text but the
   request id.
   */
  lemma RequestsIdentify(codec: Codec, input: Input, input': Input)
    requires Acceptable(Trim(input)) && Acceptable(Trim(input'))
    requires forall a, b, c, d :: codec.proposalId(a, b) == codec.proposalId(c, d) ==> a == c && b == d
    requires forall x, y :: codec.payloadHash(x) == codec.payloadHash(y) ==> x == y
    ensures Prepared(codec, input).id == Prepared(codec, input').id <==> SamePair(input, input')
    ensures Prepared(codec, input).payloadHash == Prepared(codec, input').payloadHash <==>
            SamePair(input, input') && SameTexts(input, input')
  {
    var p, q := Prepared(codec, input), Prepared(codec, input');
    PreparedPlainly(codec, input);
    PreparedPlainly(codec, input');
    OnePairOrder(p.nodeA, p.nodeB, q.nodeA, q.nodeB);
    var o, o' := Content(Ordered(Trim(input))), Content(Ordered(Trim(input')));
    assert o == Input("", p.nodeA, p.nodeB, TrimSpace(input.rationale), TrimSpace(input.producer),
                      TrimSpace(input.version), TrimSpace(input.session));
    assert o' == Input("", q.nodeA, q.nodeB, TrimSpace(input'.rationale), TrimSpace(input'.producer),
                       TrimSpace(input'.version), TrimSpace(input'.session));
  }

  // ----- a submission -----

  ghost predicate HasRequest(db: Db, request: Id) {
    exists id :: id in db.proposals && db.proposals[id].request == request
  }

  ghost predicate HasPair(db: Db, p: Proposal) {
    exists id :: id in db.proposals && db.proposals[id].nodeA == p.nodeA && db.proposals[id].nodeB == p.nodeB
  }

  ghost predicate Answers(db: Db, p: Proposal, id: Id) {
    id in db.proposals && db.proposals[id].payloadHash == p.payloadHash
  }

  /** What a submission meets: nothing, its own request, or its pair; then the content decides. */
  ghost predicate Meets(db: Db, p: Proposal) {
    || (!HasRequest(db, p.request) && !HasPair(db, p) && p.id !in db.proposals)
    || (exists id :: Answers(db, p, id) && db.proposals[id].request == p.request)
    || (!HasRequest(db, p.request)
        && exists id :: Answers(db, p, id) && db.proposals[id].nodeA == p.nodeA && db.proposals[id].nodeB == p.nodeB)
  }

  /** Accepted exactly when it is new or what is stored under its request, or else its pair, has its content. */
  lemma SubmitPlainly(db: Db, p: Proposal)
    requires Inv(db)
    ensures Clashing(db, p) == {} <==> !HasRequest(db, p.request) && !HasPair(db, p) && p.id !in db.proposals
    ensures (Clashing(db, p) != {} ==>
               exists id :: id in Existing(db, p) && db.proposals[id].payloadHash == p.payloadHash) <==> Meets(db, p)
  {
    NewPlainly(db, p);
    forall id
      ensures id in ByRequest(db, p) <==> id in db.proposals && db.proposals[id].request == p.request
      ensures id in ByPair(db, p) <==>
              id in db.proposals && db.proposals[id].nodeA == p.nodeA && db.proposals[id].nodeB == p.nodeB
    {
    }
    assert ByRequest(db, p) != {} <==> HasRequest(db, p.request);
  }

  lemma NewPlainly(db: Db, p: Proposal)
    requires Inv(db)
    ensures Clashing(db, p) == {} <==> !HasRequest(db, p.request) && !HasPair(db, p) && p.id !in db.proposals
  {
    if Clashing(db, p) == {} {
      NoClashMeansNew(db, p);
      forall id | id in db.proposals
        ensures !Clash(db.proposals[id], p)
      {
        assert id !in Clashing(db, p);
      }
    } else {
      var id :| id in Clashing(db, p);
      assert ProposalSound(db, id);
    }
  }

  /** A new proposal is added; an answered one changes nothing. */
  lemma SubmittedPlainly(db: Db, p: Proposal)
    requires Inv(db)
    ensures var db' := AfterSubmit(db, p);
            && db'.nodes == db.nodes && db'.edges == db.edges && db'.decisions == db.decisions
            && (Clashing(db, p) != {} ==> db'.proposals == db.proposals)
            && (Clashing(db, p) == {} ==>
                  && p.id !in db.proposals && db'.proposals.Keys == db.proposals.Keys + {p.id}
                  && db'.proposals[p.id] == p
                  && forall id :: id in db.proposals ==> db'.proposals[id] == db.proposals[id])
  {
    NewPlainly(db, p);
  }

  // ----- a decision -----

  /** No row has the edge's id, its ends as a contradiction, or its proposal. */
  ghost predicate EdgeNew(db: Db, id: Id, p: Proposal) {
    && id !in db.edges
    && forall x :: x in db.edges ==>
         && db.edges[x].origin != p.id
         && !(db.edges[x].from == p.nodeA && db.edges[x].to == p.nodeB && db.edges[x].relation == "contradicts")
  }

  lemma DecidablePlainly(codec: Codec, db: Db, p: Proposal, outcome: Outcome)
    ensures Decidable(codec, db, p, outcome) <==>
            && p.id in db.proposals && db.proposals[p.id] == p && p.outcome == Pending && outcome != Pending
            && codec.decisionId(p.id, outcome) !in db.decisions
            && (outcome == Admitted ==> EdgeNew(db, codec.edgeId(p.nodeA, p.nodeB), p))
  {
    var e := EdgeFor(codec, p);
    forall x
      ensures x in EdgeClashes(db, e) <==>
              && x in db.edges
              && (x == e.id || db.edges[x].origin == p.id
                  || (db.edges[x].from == p.nodeA && db.edges[x].to == p.nodeB
                      && db.edges[x].relation == "contradicts"))
    {
    }
    if EdgeClashes(db, e) == {} {
      forall x | x in db.edges
        ensures x != e.id && db.edges[x].origin != p.id
        ensures !(db.edges[x].from == p.nodeA && db.edges[x].to == p.nodeB && db.edges[x].relation == "contradicts")
      {
        assert x !in EdgeClashes(db, e);
      }
    }
  }

  ghost predicate DecisionWritten(
    codec: Codec, db: Db, db': Db, p: Proposal, outcome: Outcome, decider: string, reason: string)
  {
    var d := codec.decisionId(p.id, outcome);
    && db'.decisions.Keys == db.decisions.Keys + {d}
    && (forall x :: x in db.decisions && x != d ==> db'.decisions[x] == db.decisions[x])
    && db'.decisions[d].id == d && db'.decisions[d].proposal == p.id && db'.decisions[d].outcome == outcome
    && db'.decisions[d].decider == decider && db'.decisions[d].reason == reason
    && p.id in db'.proposals && db'.decisions[d].edge == db'.proposals[p.id].edge
  }

  /** The edge runs from the smaller node to the larger and names its proposal and decision. */
  ghost predicate EdgeWritten(codec: Codec, db: Db, db': Db, p: Proposal) {
    var e := codec.edgeId(p.nodeA, p.nodeB);
    && db'.edges.Keys == db.edges.Keys + {e} && (forall x :: x in db.edges && x != e ==> db'.edges[x] == db.edges[x])
    && db'.edges[e].id == e && db'.edges[e].from == p.nodeA && db'.edges[e].to == p.nodeB
    && db'.edges[e].relation == "contradicts" && db'.edges[e].origin == p.id
    && db'.edges[e].review == codec.decisionId(p.id, Admitted)
  }

  /** One decision marks its proposal, leaves its audit texts and, when admitted, writes one edge. */
  lemma DecidedPlainly(codec: Codec, db: Db, p: Proposal, outcome: Outcome, decider: string, reason: string)
    requires Decidable(codec, db, p, outcome)
    ensures var db' := AfterDecision(codec, db, p, outcome, decider, reason);
            && db'.nodes == db.nodes && db'.proposals.Keys == db.proposals.Keys
            && (forall x :: x in db.proposals && x != p.id ==> db'.proposals[x] == db.proposals[x])
            && db'.proposals[p.id] == p.(outcome := outcome, edge := db'.proposals[p.id].edge)
            && db'.proposals[p.id].edge == (if outcome == Admitted then codec.edgeId(p.nodeA, p.nodeB) else "")
            && DecisionWritten(codec, db, db', p, outcome, decider, reason)
            && (outcome == Admitted ==> EdgeWritten(codec, db, db', p))
            && (outcome != Admitted ==> db'.edges == db.edges)
  {
  }

  /** A decided proposal replays exactly for the decider and reason of its one decision. */
  lemma AuditPlainly(codec: Codec, steps: seq<Step>, p: Id, d: Id, decider: string, reason: string)
    requires codec.Usable() && Run(codec, EMPTY, steps)
    requires var db := After(codec, EMPTY, steps); d in db.decisions && db.decisions[d].proposal == p
    ensures var db := After(codec, EMPTY, steps);
            SameAudit(db, p, decider, reason) <==>
            db.decisions[d].decider == decider && db.decisions[d].reason == reason
  {
    RunInv(codec, EMPTY, steps);
    var db := After(codec, EMPTY, steps);
    assert DecisionSound(db, d);
    TerminalMeansDecided(codec, steps, p);
    assert d in DecisionsOf(db, p);
    OneDecision(DecisionsOf(db, p));
  }
}
