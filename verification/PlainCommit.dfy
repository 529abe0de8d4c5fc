/**
 The reviewed-implements commit field by field: what the tables hold after every run, and
 how the stored rows decide an undisturbed attempt.
 */
module PlainCommit {
  import opened Outcomes
  import opened ImplementsCommit

  /** The edge runs from the specification to the implementation and carries its row's coordinates. */
  ghost predicate EdgeShows(r: Row, e: Edge) {
    && e.id == r.edge && e.from == r.spec && e.to == r.impl && e.relation == "implements" && e.origin == r.origin
    && e.provenance.id == "provenance:" + r.edge && e.provenance.originRefs == [r.spec, r.impl, r.origin]
    && e.provenance.originGroup == r.edge && e.provenance.producer == "ahe-wrap"
    && e.provenance.method_ == "reviewed_derived_implements"
    && e.provenance.version == (if r.contract == "canonical-derived-implements-admission/v2" then "v2" else "v1")
    && e.provenance.trace == r.request && e.provenance.review == r.receipt
  }

  /** No two rows share a request, a receipt, an edge or a directed pair. */
  ghost predicate RowKeys(rows: set<Row>) {
    forall r, q :: r in rows && q in rows && r != q ==>
      r.request != q.request && r.receipt != q.receipt && r.edge != q.edge && (r.spec != q.spec || r.impl != q.impl)
  }

  /** No two edges share an id, or both ends and the relation. */
  ghost predicate EdgeKeys(edges: set<Edge>) {
    forall d, e :: d in edges && e in edges && d != e ==>
      d.id != e.id && (d.from != e.from || d.to != e.to || d.relation != e.relation)
  }

  ghost predicate OneEdgeFor(db: Db, r: Row) {
    exists e :: e in db.edges && EdgeShows(r, e) && forall d :: d in db.edges && d.id == r.edge ==> d == e
  }

  ghost predicate OneRowFor(db: Db, e: Edge) {
    exists r :: r in db.rows && EdgeShows(r, e) && forall q :: q in db.rows && q.edge == e.id ==> q == r
  }

  lemma EdgeOfShows(r: Row, e: Edge)
    ensures EdgeShows(r, e) <==> e == EdgeOf(r)
  {
  }

  lemma RowHasEdge(db: Db, r: Row)
    requires Consistent(db) && r in db.rows
    ensures OneEdgeFor(db, r)
  {
    var e := EdgeOf(r);
    EdgeOfShows(r, e);
    assert forall d :: d in db.edges && d.id == r.edge ==> EdgeClash(d, e);
  }

  lemma EdgeHasRow(db: Db, e: Edge)
    requires Consistent(db) && e in db.edges && e.relation == "implements"
    ensures OneRowFor(db, e)
  {
    var r :| r in db.rows && EdgeOf(r) == e;
    EdgeOfShows(r, e);
    assert forall q :: q in db.rows && q.edge == e.id ==> Clash(q, r);
  }

  /**
   After every run: keys are unique; each row has exactly one edge under its edge id, from its
   specification to its implementation; each implements edge is that of exactly one row.
   */
  lemma StoredPlainly(s: State, steps: seq<Step>)
    requires Start(s) && Run(s, steps)
    ensures var db := After(s, steps).db;
            && RowKeys(db.rows) && EdgeKeys(db.edges)
            && (forall r :: r in db.rows ==> OneEdgeFor(db, r))
            && (forall e :: e in db.edges && e.relation == "implements" ==> OneRowFor(db, e))
  {
    StartInv(s);
    RunInv(s, steps);
    var db := After(s, steps).db;
    KeysPlainly(db);
    forall r | r in db.rows
      ensures OneEdgeFor(db, r)
    {
      RowHasEdge(db, r);
    }
    forall e | e in db.edges && e.relation == "implements"
      ensures OneRowFor(db, e)
    {
      EdgeHasRow(db, e);
    }
  }

  lemma KeysPlainly(db: Db)
    requires Consistent(db)
    ensures RowKeys(db.rows) && EdgeKeys(db.edges)
  {
    forall r, q | r in db.rows && q in db.rows && r != q
      ensures r.request != q.request && r.receipt != q.receipt && r.edge != q.edge
      ensures r.spec != q.spec || r.impl != q.impl
    {
      assert !Clash(r, q);
    }
    forall d, e | d in db.edges && e in db.edges && d != e
      ensures d.id != e.id && (d.from != e.from || d.to != e.to || d.relation != e.relation)
    {
      assert !EdgeClash(d, e);
    }
  }

  /** A success reply: the wanted row and its one edge are stored, then and after every later step. */
  lemma SuccessPlainly(s: State, before: seq<Step>, after: seq<Step>, i: nat)
    requires Start(s) && Run(s, before) && Run(After(s, before), after)
    requires i < |s.clients| && |After(s, before).clients| == |s.clients|
    requires var p := After(s, before).clients[i].phase; p.Replied? && p.reply.Committed?
    ensures var db := After(After(s, before), after).db;
            s.clients[i].want in db.rows && OneEdgeFor(db, s.clients[i].want)
  {
    SuccessIsDurable(s, before, after, i);
    StartInv(s);
    RunInv(s, before);
    RunInv(After(s, before), after);
    RowHasEdge(After(After(s, before), after).db, s.clients[i].want);
  }

  /** Two clients that share a request, a receipt, an edge id or a directed pair. */
  ghost predicate SameKey(r: Row, q: Row) {
    r.request == q.request || r.receipt == q.receipt || r.edge == q.edge || (r.spec == q.spec && r.impl == q.impl)
  }

  /** Only one of them is told that it was first. */
  lemma FirstPlainly(s: State, steps: seq<Step>, i: nat, j: nat)
    requires Start(s) && Run(s, steps) && i < |s.clients| && j < |s.clients| && |After(s, steps).clients| == |s.clients|
    requires After(s, steps).clients[i].phase == Replied(Committed(false), true)
    requires After(s, steps).clients[j].phase == Replied(Committed(false), true)
    requires SameKey(s.clients[i].want, s.clients[j].want)
    ensures i == j
  {
    OneFirstSuccess(s, steps, i, j);
  }

  /** And a client whose key is held by another row is never told that it succeeded. */
  lemma RivalPlainly(s: State, before: seq<Step>, after: seq<Step>, i: nat, r: Row)
    requires Start(s) && Run(s, before) && Run(After(s, before), after) && i < |s.clients|
    requires r in After(s, before).db.rows && SameKey(r, s.clients[i].want) && r != s.clients[i].want
    ensures var t := After(After(s, before), after);
            |t.clients| == |s.clients| && (t.clients[i].phase.Replied? ==> t.clients[i].phase.reply.Failed?)
  {
    RivalNeverSucceeds(s, before, after, i, r);
  }

  // ----- errors -----

  /** A lost serialization, a deadlock or a taken key starts another attempt while one is left; nothing else does. */
  lemma RetriedExactly(s: State, c: nat, e: Error)
    requires c < |s.clients| && !s.clients[c].phase.Replied? && Enabled(s, Abort(c, e))
    ensures var p, p' := s.clients[c].phase, Apply(s, Abort(c, e)).clients[c].phase;
            if p.left > 1 && e.Sql? && (e.code == "40001" || e.code == "40P01" || e.code == "23505")
            then p' == Ready(p.left - 1)
            else p' == Replied(Failed(e), false)
  {
  }

  // ----- an undisturbed attempt -----

  ghost predicate Quiet(s: State, c: nat) {
    && c < |s.clients| && s.clients[c].phase.Ready?
    && forall i :: 0 <= i < |s.clients| && i != c ==>
       !s.clients[i].phase.RowPending? && !s.clients[i].phase.EdgePending?
  }

  /** A row under the same request, receipt or directed pair. */
  ghost predicate Coordinates(want: Row, r: Row) {
    r.request == want.request || r.receipt == want.receipt || (r.spec == want.spec && r.impl == want.impl)
  }

  /** A row holds the wanted edge id, or an edge that id or the directed implements pair. */
  ghost predicate EdgeTaken(db: Db, want: Row) {
    exists e :: e in db.edges
                && (e.id == want.edge || (e.from == want.spec && e.to == want.impl && e.relation == "implements"))
  }

  ghost predicate RowTaken(db: Db, want: Row) {
    exists r :: r in db.rows && (Coordinates(want, r) || r.edge == want.edge)
  }

  ghost function Ended(s: State, c: nat, p: Phase): State
    requires c < |s.clients|
  {
    s.(clients := s.clients[c := s.clients[c].(phase := p)])
  }

  /** Tried again with a new snapshot as long as an attempt is left. */
  ghost function TakenKey(left: nat): Phase {
    if left > 1 then Ready(left - 1) else Replied(Failed(Sql("23505")), false)
  }

  lemma OneStep(s: State, a: Step)
    requires Enabled(s, a)
    ensures Run(s, [a]) && After(s, [a]) == Apply(s, a)
  {
    var rest := [a][1..];
    assert rest == [];
    assert Run(Apply(s, a), rest);
  }

  lemma TwoSteps(s: State, a: Step, b: Step)
    requires Enabled(s, a) && Enabled(Apply(s, a), b)
    ensures Run(s, [a, b]) && After(s, [a, b]) == Apply(Apply(s, a), b)
  {
    OneStep(s, a);
    OneStep(Apply(s, a), b);
    RunSplit(s, [a], [b]);
    assert [a] + [b] == [a, b];
  }

  lemma ThreeSteps(s: State, a: Step, b: Step, d: Step)
    requires Run(s, [a, b]) && Enabled(After(s, [a, b]), d)
    ensures Run(s, [a, b, d]) && After(s, [a, b, d]) == Apply(After(s, [a, b]), d)
  {
    OneStep(After(s, [a, b]), d);
    RunSplit(s, [a, b], [d]);
    assert [a, b] + [d] == [a, b, d];
  }

  /** What the stored rows say of the wanted coordinates. */
  ghost function LookedUp(db: Db, want: Row, left: nat): Phase {
    if exists r :: r in db.rows && Coordinates(want, r) && r != want then Replied(Failed(ReplayConflict), false)
    else if want in db.rows then Replaying(left, db)
    else Inserting(left, db)
  }

  lemma LoadedPlainly(client: Client)
    requires client.phase.Begun? && Consistent(client.phase.snap)
    ensures Loaded(client) == LookedUp(client.phase.snap, client.want, client.phase.left)
  {
    var snap := client.phase.snap;
    MatchedIsStored(snap, client.want);
    LookUpMeaning(snap.rows, client.want);
    if client.want in snap.rows {
      EdgeIsThere(snap, client.want);
    }
    assert forall r :: Coordinates(client.want, r) <==> SharesCoordinates(client.want, r);
  }

  /** Beginning and looking up changes nothing but the client's own phase. */
  lemma LookupPlainly(s: State, c: nat)
    requires Inv(s) && Quiet(s, c)
    ensures Run(s, [Begin(c), Load(c)])
    ensures After(s, [Begin(c), Load(c)]) ==
            Ended(s, c, LookedUp(s.db, s.clients[c].want, s.clients[c].phase.left))
  {
    var client := s.clients[c];
    LoadedPlainly(client.(phase := Begun(client.phase.left, s.db)));
    TwoSteps(s, Begin(c), Load(c));
  }

  /** The same row stored: the attempt replays and changes nothing. */
  lemma AttemptReplays(s: State, c: nat)
    requires Inv(s) && Quiet(s, c) && s.clients[c].want in s.db.rows
    requires forall r :: r in s.db.rows && Coordinates(s.clients[c].want, r) ==> r == s.clients[c].want
    ensures Run(s, [Begin(c), Load(c), Commit(c)])
    ensures After(s, [Begin(c), Load(c), Commit(c)]) == Ended(s, c, Replied(Committed(true), false))
  {
    LookupPlainly(s, c);
    ThreeSteps(s, Begin(c), Load(c), Commit(c));
  }

  /** Another row under one of its coordinates: a final conflict. */
  lemma AttemptConflicts(s: State, c: nat, r: Row)
    requires Inv(s) && Quiet(s, c) && r in s.db.rows && Coordinates(s.clients[c].want, r) && r != s.clients[c].want
    ensures Run(s, [Begin(c), Load(c)])
    ensures After(s, [Begin(c), Load(c)]) == Ended(s, c, Replied(Failed(ReplayConflict), false))
  {
    LookupPlainly(s, c);
  }

  lemma InsertPlainly(s: State, c: nat)
    requires Inv(s) && Quiet(s, c) && !RowTaken(s.db, s.clients[c].want)
    ensures var three := [Begin(c), Load(c), InsertRow(c)];
            Run(s, three) && After(s, three) == Ended(s, c, RowPending(s.clients[c].phase.left, s.db))
  {
    var want := s.clients[c].want;
    assert want in s.db.rows ==> Coordinates(want, want);
    LookupPlainly(s, c);
    forall r | r in s.db.rows
      ensures !Clash(r, want)
    {
      assert !Coordinates(want, r) && r.edge != want.edge;
    }
    ThreeSteps(s, Begin(c), Load(c), InsertRow(c));
  }

  /** The end of an undisturbed first attempt. */
  ghost predicate FirstCommit(s: State, t: State, c: nat)
    requires c < |s.clients|
  {
    var want := s.clients[c].want;
    && t.lawful == s.lawful && t.clients == Ended(s, c, Replied(Committed(false), true)).clients
    && t.db.rows == s.db.rows + {want}
    && exists e :: EdgeShows(want, e) && t.db.edges == s.db.edges + {e}
  }

  /**
   Nothing in the way and a lawful packet: one row and its one edge are added. With an
   unlawful packet the deferred checks refuse the commit and nothing is added.
   */
  lemma AttemptInserts(s: State, c: nat)
    requires Inv(s) && Quiet(s, c) && !RowTaken(s.db, s.clients[c].want) && !EdgeTaken(s.db, s.clients[c].want)
    ensures Run(s, [Begin(c), Load(c), InsertRow(c)])
    ensures var mid, rest := After(s, [Begin(c), Load(c), InsertRow(c)]), [InsertEdge(c), Commit(c)];
            && Run(mid, rest)
            && (s.clients[c].want in s.lawful ==> FirstCommit(s, After(mid, rest), c))
            && (s.clients[c].want !in s.lawful ==>
                  After(mid, rest) == Ended(s, c, Replied(Failed(Sql("23514")), false)))
  {
    InsertPlainly(s, c);
    var left, want := s.clients[c].phase.left, s.clients[c].want;
    var mid := Ended(s, c, RowPending(left, s.db));
    EdgeOfShows(want, EdgeOf(want));
    forall e | e in s.db.edges
      ensures !EdgeClash(e, EdgeOf(want))
    {
    }
    assert Enabled(mid, InsertEdge(c));
    var pending := mid.clients[c].(phase := EdgePending(left, s.db));
    assert Apply(mid, InsertEdge(c)).clients == s.clients[c := pending];
    assert Sound(s.db, s.lawful, pending);
    DeferredChecksPass(s.db, s.lawful, pending);
    TwoSteps(mid, InsertEdge(c), Commit(c));
  }

  /** A row under the wanted edge id, though under none of the coordinates, ends the attempt as a taken key. */
  lemma AttemptLosesRow(s: State, c: nat, r: Row)
    requires Inv(s) && Quiet(s, c) && r in s.db.rows && r.edge == s.clients[c].want.edge
    requires forall q :: q in s.db.rows ==> !Coordinates(s.clients[c].want, q)
    ensures var three := [Begin(c), Load(c), InsertRow(c)];
            Run(s, three) && After(s, three) == Ended(s, c, TakenKey(s.clients[c].phase.left))
  {
    assert Coordinates(s.clients[c].want, s.clients[c].want);
    LookupPlainly(s, c);
    assert Clash(r, s.clients[c].want);
    ThreeSteps(s, Begin(c), Load(c), InsertRow(c));
  }

  /** A taken edge id or pair ends the attempt like any other taken key. */
  lemma AttemptLosesEdge(s: State, c: nat)
    requires Inv(s) && Quiet(s, c) && !RowTaken(s.db, s.clients[c].want) && EdgeTaken(s.db, s.clients[c].want)
    ensures Run(s, [Begin(c), Load(c), InsertRow(c)])
    ensures var mid := After(s, [Begin(c), Load(c), InsertRow(c)]);
            && Run(mid, [InsertEdge(c)])
            && After(mid, [InsertEdge(c)]) ==
               Ended(s, c, TakenKey(s.clients[c].phase.left))
  {
    InsertPlainly(s, c);
    var left, want := s.clients[c].phase.left, s.clients[c].want;
    var mid := Ended(s, c, RowPending(left, s.db));
    EdgeOfShows(want, EdgeOf(want));
    var e :| e in s.db.edges
             && (e.id == want.edge || (e.from == want.spec && e.to == want.impl && e.relation == "implements"));
    assert EdgeClash(e, EdgeOf(want));
    OneStep(mid, InsertEdge(c));
  }
}
