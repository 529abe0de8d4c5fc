/**
 Reviewed implements admissions committed by concurrent clients under snapshot isolation
 (PostgreSQL documentation, section 13.2.2), with unique keys and a bounded retry.

 A client runs attempts: begin a repeatable-read snapshot, look its coordinates up in it,
 then either replay the stored row or insert a row and an edge, and commit. Inserts meet
 the unique keys of every committed row, whatever the snapshot shows, and wait while
 another transaction holds a conflicting uncommitted row.
 */
module ImplementsCommit {
  import opened Outcomes
  import opened Ordering

  type Id = string

  // ----- rows and edges -----

  /** One admission row; `rest` stands for the remaining text columns, compared exactly. */
  datatype Row = Row(
    request: Id, contract: string, receipt: Id, edge: Id, spec: Id, impl: Id, origin: Id, rest: string)

  datatype Provenance = Provenance(
    id: Id, originRefs: seq<Id>, originGroup: Id, producer: string, method_: string, version: string, trace: Id,
    review: Id)

  datatype Edge = Edge(id: Id, from: Id, to: Id, relation: string, origin: Id, provenance: Provenance)

  const RECURSIVE_CONTRACT := "canonical-derived-implements-admission/v2"
  const IMPLEMENTS := "implements"
  const ATTEMPTS: nat := 3

  /** The only edge an admission may store. */
  function EdgeOf(row: Row): Edge {
    Edge(row.edge, row.spec, row.impl, IMPLEMENTS, row.origin,
         Provenance("provenance:" + row.edge, [row.spec, row.impl, row.origin], row.edge, "ahe-wrap",
                    "reviewed_derived_implements", if row.contract == RECURSIVE_CONTRACT then "v2" else "v1",
                    row.request, row.receipt))
  }

  /** Two rows share a unique key: request, receipt, edge id or directed pair. */
  predicate Clash(r: Row, r': Row) {
    r.request == r'.request || r.receipt == r'.receipt || r.edge == r'.edge || (r.spec == r'.spec && r.impl == r'.impl)
  }

  predicate EdgeClash(e: Edge, e': Edge) {
    e.id == e'.id || (e.from == e'.from && e.to == e'.to && e.relation == e'.relation)
  }

  /** The coordinates a lookup selects by; unlike `Clash` they leave out the edge id. */
  predicate SharesCoordinates(want: Row, r: Row) {
    r.request == want.request || r.receipt == want.receipt || (r.spec == want.spec && r.impl == want.impl)
  }

  datatype Db = Db(rows: set<Row>, edges: set<Edge>)

  predicate Within(d: Db, d': Db) {
    d.rows <= d'.rows && d.edges <= d'.edges
  }

  // ----- errors and retries -----

  datatype Error = Sql(code: string) | ReplayConflict | Other

  const SERIALIZATION := "40001"
  const DEADLOCK := "40P01"
  const UNIQUE := "23505"
  const CHECK := "23514"

  predicate Retry(e: Error) {
    e.Sql? && (e.code == SERIALIZATION || e.code == DEADLOCK || e.code == UNIQUE)
  }

  // ----- clients -----

  datatype Reply = Committed(replayed: bool) | Failed(error: Error)

  /** `left` counts the attempts not yet used up, the running one included. */
  datatype Phase =
    | Ready(left: nat)
    | Begun(left: nat, snap: Db)
    | Replaying(left: nat, snap: Db)
    | Inserting(left: nat, snap: Db)
    | RowPending(left: nat, snap: Db)
    | EdgePending(left: nat, snap: Db)
    | Replied(reply: Reply, wrote: bool)

  datatype Client = Client(want: Row, phase: Phase)

  /** `lawful` are the rows whose packet the deferred receipt checks accept. */
  datatype State = State(db: Db, clients: seq<Client>, lawful: set<Row>)

  predicate HoldsRow(c: Client) {
    c.phase.RowPending? || c.phase.EdgePending?
  }

  predicate HoldsEdge(c: Client) {
    c.phase.EdgePending?
  }

  /** The client's own transaction stored its row, whether or not the reply arrived. */
  predicate Wrote(c: Client) {
    c.phase.Replied? && c.phase.wrote
  }

  predicate Succeeded(c: Client) {
    c.phase.Replied? && c.phase.reply.Committed?
  }

  predicate InTransaction(p: Phase) {
    p.Begun? || p.Replaying? || p.Inserting? || p.RowPending? || p.EdgePending?
  }

  function AfterError(left: nat, e: Error): Phase {
    if Retry(e) && left > 1 then Ready(left - 1) else Replied(Failed(e), false)
  }

  // ----- the lookup -----

  datatype Lookup = Absent | Same | Conflicting

  function Matching(rows: set<Row>, want: Row): set<Row> {
    set r | r in rows && SharesCoordinates(want, r)
  }

  function LookUp(rows: set<Row>, want: Row): Lookup {
    if Matching(rows, want) == {} then Absent
    else if Matching(rows, want) == {want} then Same
    else Conflicting
  }

  ghost function CheckEdge(edges: set<Edge>, want: Edge): Lookup {
    if forall e :: e in edges ==> e.id != want.id then Absent
    else if forall e :: e in edges && e.id == want.id ==> e == want then Same
    else Conflicting
  }

  /** Constraints and triggers run at commit against the snapshot and the transaction's own rows. */
  ghost predicate DeferredChecks(snap: Db, row: Row, lawful: set<Row>) {
    && row in lawful
    && CheckEdge(snap.edges + {EdgeOf(row)}, EdgeOf(row)) == Same
    && (set r | r in snap.rows + {row} && r.edge == row.edge) == {row}
  }

  // ----- steps -----

  datatype Step =
    | Begin(c: nat)
    | Load(c: nat)
    | InsertRow(c: nat)
    | InsertEdge(c: nat)
    | Commit(c: nat)
    | CommitUnheard(c: nat)
    | Abort(c: nat, error: Error)
    | OtherEdges(edges: set<Edge>)

  /** Which step a client can take by itself; inserts may also have to wait. */
  ghost predicate Able(lawful: set<Row>, client: Client, step: Step)
    requires !step.OtherEdges?
  {
    match step
    case Begin(_) => client.phase.Ready?
    case Load(_) => client.phase.Begun?
    case InsertRow(_) => client.phase.Inserting?
    case InsertEdge(_) => client.phase.RowPending?
    case Commit(_) => client.phase.Replaying? || client.phase.EdgePending?
    case CommitUnheard(_) => client.phase.EdgePending? && DeferredChecks(client.phase.snap, client.want, lawful)
    case Abort(_, _) => !client.phase.Replied?
  }

  ghost predicate Enabled(s: State, step: Step) {
    if step.OtherEdges? then
      && (forall e :: e in step.edges ==> e.relation != IMPLEMENTS)
      && Unclashing(s.db.edges + step.edges)
      && (forall i, e :: 0 <= i < |s.clients| && e in step.edges && HoldsEdge(s.clients[i]) ==>
            !EdgeClash(EdgeOf(s.clients[i].want), e))
    else
      && step.c < |s.clients| && Able(s.lawful, s.clients[step.c], step)
      && (step.InsertRow? ==> RowFree(s, step.c))
      && (step.InsertEdge? ==> EdgeFree(s, step.c))
  }

  /** No other transaction holds an uncommitted row this insert would have to wait for. */
  ghost predicate RowFree(s: State, c: nat)
    requires c < |s.clients|
  {
    forall i :: 0 <= i < |s.clients| && i != c && HoldsRow(s.clients[i]) ==>
      !Clash(s.clients[i].want, s.clients[c].want)
  }

  ghost predicate EdgeFree(s: State, c: nat)
    requires c < |s.clients|
  {
    forall i :: 0 <= i < |s.clients| && i != c && HoldsEdge(s.clients[i]) ==>
      !EdgeClash(EdgeOf(s.clients[i].want), EdgeOf(s.clients[c].want))
  }

  ghost predicate Unclashing(edges: set<Edge>) {
    forall e, e' :: e in edges && e' in edges && EdgeClash(e, e') ==> e == e'
  }

  /** The client's next phase; only commits also change the stored rows. */
  ghost function NextPhase(db: Db, lawful: set<Row>, client: Client, step: Step): Phase
    requires !step.OtherEdges? && Able(lawful, client, step)
  {
    var want := client.want;
    match step
    case Begin(_) => Begun(client.phase.left, db)
    case Load(_) => Loaded(client)
    case InsertRow(_) =>
      if exists r :: r in db.rows && Clash(r, want) then AfterError(client.phase.left, Sql(UNIQUE))
      else RowPending(client.phase.left, client.phase.snap)
    case InsertEdge(_) =>
      if exists e :: e in db.edges && EdgeClash(e, EdgeOf(want)) then AfterError(client.phase.left, Sql(UNIQUE))
      else EdgePending(client.phase.left, client.phase.snap)
    case Commit(_) =>
      if client.phase.Replaying? then Replied(Committed(true), false)
      else if DeferredChecks(client.phase.snap, want, lawful) then Replied(Committed(false), true)
      else AfterError(client.phase.left, Sql(CHECK))
    case CommitUnheard(_) => Replied(Failed(Other), true)
    case Abort(_, e) => AfterError(client.phase.left, e)
  }

  function Stored(db: Db, client: Client): Db {
    if Wrote(client) then Db(db.rows + {client.want}, db.edges + {EdgeOf(client.want)}) else db
  }

  ghost function Loaded(client: Client): Phase
    requires client.phase.Begun?
  {
    var left, snap := client.phase.left, client.phase.snap;
    match LookUp(snap.rows, client.want)
    case Absent => Inserting(left, snap)
    case Conflicting => AfterError(left, ReplayConflict)
    case Same =>
      match CheckEdge(snap.edges, EdgeOf(client.want))
      case Same => Replaying(left, snap)
      case Conflicting => AfterError(left, ReplayConflict)
      case Absent => AfterError(left, Other)
  }

  ghost function Apply(s: State, step: Step): State
    requires Enabled(s, step)
  {
    if step.OtherEdges? then s.(db := s.db.(edges := s.db.edges + step.edges))
    else
      var client := s.clients[step.c];
      var moved := client.(phase := NextPhase(s.db, s.lawful, client, step));
      State(Stored(s.db, moved), s.clients[step.c := moved], s.lawful)
  }

  ghost predicate Run(s: State, steps: seq<Step>)
    decreases |steps|
  {
    steps == [] || (Enabled(s, steps[0]) && Run(Apply(s, steps[0]), steps[1..]))
  }

  ghost function After(s: State, steps: seq<Step>): State
    requires Run(s, steps)
    decreases |steps|
  {
    if steps == [] then s else After(Apply(s, steps[0]), steps[1..])
  }

  ghost predicate Start(s: State) {
    && s.db.rows == {}
    && (forall e :: e in s.db.edges ==> e.relation != IMPLEMENTS) && Unclashing(s.db.edges)
    && (forall i :: 0 <= i < |s.clients| ==> s.clients[i].phase == Ready(ATTEMPTS))
  }

  // ----- the invariant -----

  /** Unique keys, and rows and implements edges one to one. */
  ghost predicate Consistent(db: Db) {
    && (forall r, r' :: r in db.rows && r' in db.rows && Clash(r, r') ==> r == r')
    && Unclashing(db.edges)
    && (forall r :: r in db.rows ==> EdgeOf(r) in db.edges)
    && (forall e :: e in db.edges && e.relation == IMPLEMENTS ==> exists r :: r in db.rows && EdgeOf(r) == e)
  }

  /** What holds of one client against the stored rows. */
  ghost predicate Sound(db: Db, lawful: set<Row>, c: Client) {
    && (c.phase.Ready? || InTransaction(c.phase) ==> 1 <= c.phase.left <= ATTEMPTS)
    && (InTransaction(c.phase) ==> Consistent(c.phase.snap) && Within(c.phase.snap, db))
    && (c.phase.Replaying? ==> c.want in c.phase.snap.rows)
    && (HoldsRow(c) ==> forall r :: r in db.rows ==> !Clash(r, c.want))
    && (HoldsEdge(c) ==> forall e :: e in db.edges ==> !EdgeClash(e, EdgeOf(c.want)))
    && (Succeeded(c) || Wrote(c) ==> c.want in db.rows)
    && (c.phase.Replied? && c.phase.reply.Committed? ==> c.phase.wrote == !c.phase.reply.replayed)
  }

  /** What holds between two different clients. */
  ghost predicate Apart(c: Client, d: Client) {
    && (HoldsRow(c) && HoldsRow(d) ==> !Clash(c.want, d.want))
    && (HoldsEdge(c) && HoldsEdge(d) ==> !EdgeClash(EdgeOf(c.want), EdgeOf(d.want)))
    && (Wrote(c) && Wrote(d) ==> !Clash(c.want, d.want))
  }

  ghost predicate AllSound(s: State) {
    forall i :: 0 <= i < |s.clients| ==> Sound(s.db, s.lawful, s.clients[i])
  }

  ghost predicate AllApart(s: State) {
    forall i, j :: 0 <= i < |s.clients| && 0 <= j < |s.clients| && i != j ==> Apart(s.clients[i], s.clients[j])
  }

  /** Every stored row was written by a client's own transaction. */
  ghost predicate AllWritten(s: State) {
    forall r :: r in s.db.rows ==> r in s.lawful && WrittenBySome(s, r)
  }

  ghost predicate WrittenBySome(s: State, r: Row) {
    exists i :: 0 <= i < |s.clients| && s.clients[i].want == r && Wrote(s.clients[i])
  }

  ghost predicate Inv(s: State) {
    Consistent(s.db) && AllSound(s) && AllApart(s) && AllWritten(s)
  }

  // ----- one step keeps it -----

  lemma StartInv(s: State)
    requires Start(s)
    ensures Inv(s)
  {
  }

  /** Storing a row that clashes with none keeps rows and edges unique and paired. */
  lemma StoreConsistent(db: Db, row: Row)
    requires Consistent(db)
    requires forall r :: r in db.rows ==> !Clash(r, row)
    requires forall e :: e in db.edges ==> !EdgeClash(e, EdgeOf(row))
    ensures Consistent(Db(db.rows + {row}, db.edges + {EdgeOf(row)}))
  {
    var after := Db(db.rows + {row}, db.edges + {EdgeOf(row)});
    forall e | e in after.edges && e.relation == IMPLEMENTS
      ensures exists r :: r in after.rows && EdgeOf(r) == e
    {
      if e in db.edges {
        var r :| r in db.rows && EdgeOf(r) == e;
        assert r in after.rows;
      } else {
        assert row in after.rows;
      }
    }
  }

  /** Other writers never store implements edges, so the pairing is kept. */
  lemma OtherEdgesConsistent(db: Db, edges: set<Edge>)
    requires Consistent(db) && Unclashing(db.edges + edges)
    requires forall e :: e in edges ==> e.relation != IMPLEMENTS
    ensures Consistent(db.(edges := db.edges + edges))
  {
  }

  /** A recorded row always has its edge, exactly as its admission would store it. */
  lemma EdgeIsThere(db: Db, row: Row)
    requires Consistent(db) && row in db.rows
    ensures CheckEdge(db.edges, EdgeOf(row)) == Same
  {
    assert EdgeOf(row) in db.edges;
    forall e | e in db.edges && e.id == EdgeOf(row).id
      ensures e == EdgeOf(row)
    {
      assert EdgeClash(e, EdgeOf(row));
    }
  }

  lemma MatchedIsStored(db: Db, row: Row)
    ensures LookUp(db.rows, row) == Same ==> row in db.rows
    ensures Consistent(db) && row in db.rows ==> LookUp(db.rows, row) == Same
  {
    if LookUp(db.rows, row) == Same {
      assert row in Matching(db.rows, row);
    }
    if Consistent(db) && row in db.rows {
      assert row in Matching(db.rows, row);
      forall r | r in Matching(db.rows, row)
        ensures r == row
      {
        assert Clash(r, row);
      }
      assert Matching(db.rows, row) == {row};
    }
  }

  /** One move of one client, seen by itself: what it claims and what it has stored. */
  ghost predicate Moves(db: Db, lawful: set<Row>, c: Client, c': Client) {
    && c'.want == c.want && !c.phase.Replied?
    && (HoldsRow(c') ==> HoldsRow(c) || (c.phase.Inserting? && RowClear(db, c.want)))
    && (HoldsEdge(c') ==> c.phase.RowPending? && EdgeClear(db, c.want))
    && (Wrote(c') ==> HoldsEdge(c) && c.want in lawful)
  }

  ghost predicate RowClear(db: Db, want: Row) {
    forall r :: r in db.rows ==> !Clash(r, want)
  }

  ghost predicate EdgeClear(db: Db, want: Row) {
    forall e :: e in db.edges ==> !EdgeClash(e, EdgeOf(want))
  }

  lemma MovesOnce(db: Db, lawful: set<Row>, client: Client, step: Step)
    requires !step.OtherEdges? && Able(lawful, client, step)
    ensures Moves(db, lawful, client, client.(phase := NextPhase(db, lawful, client, step)))
  {
  }

  /** The moving client is sound in its next phase. */
  lemma MoverSound(db: Db, lawful: set<Row>, client: Client, step: Step)
    requires !step.OtherEdges? && Able(lawful, client, step) && Consistent(db) && Sound(db, lawful, client)
    ensures var moved := client.(phase := NextPhase(db, lawful, client, step)); Sound(Stored(db, moved), lawful, moved)
  {
    if step.Load? {
      MatchedIsStored(client.phase.snap, client.want);
    }
  }

  /** A client that does not move stays sound whatever another one stores. */
  lemma BystanderSound(db: Db, lawful: set<Row>, c: Client, c': Client, d: Client)
    requires Sound(db, lawful, d) && Apart(c, d) && Moves(db, lawful, c, c')
    ensures Sound(Stored(db, c'), lawful, d)
  {
  }

  lemma OtherEdgesSound(db: Db, lawful: set<Row>, edges: set<Edge>, d: Client)
    requires Sound(db, lawful, d)
    requires forall e :: e in edges && HoldsEdge(d) ==> !EdgeClash(EdgeOf(d.want), e)
    ensures Sound(db.(edges := db.edges + edges), lawful, d)
  {
  }

  /** Whoever takes or keeps a claim keeps clear of every other client's claim. */
  lemma MoverApart(db: Db, lawful: set<Row>, c: Client, c': Client, d: Client)
    requires Moves(db, lawful, c, c') && Apart(c, d) && Sound(db, lawful, c) && Sound(db, lawful, d)
    requires HoldsRow(c') && c.phase.Inserting? && HoldsRow(d) ==> !Clash(d.want, c.want)
    requires HoldsEdge(c') && HoldsEdge(d) ==> !EdgeClash(EdgeOf(d.want), EdgeOf(c.want))
    ensures Apart(c', d) && Apart(d, c')
  {
  }

  lemma WritesAreConsistent(db: Db, lawful: set<Row>, c: Client, c': Client)
    requires Consistent(db) && Sound(db, lawful, c) && Moves(db, lawful, c, c')
    ensures Consistent(Stored(db, c'))
  {
    if Wrote(c') {
      StoreConsistent(db, c.want);
    }
  }

  lemma WritersRemembered(s: State, c: nat, c': Client)
    requires AllWritten(s) && c < |s.clients| && Moves(s.db, s.lawful, s.clients[c], c')
    ensures AllWritten(State(Stored(s.db, c'), s.clients[c := c'], s.lawful))
  {
    var s' := State(Stored(s.db, c'), s.clients[c := c'], s.lawful);
    forall r | r in s'.db.rows
      ensures r in s'.lawful && WrittenBySome(s', r)
    {
      if r in s.db.rows {
        assert WrittenBySome(s, r);
        var i :| 0 <= i < |s.clients| && s.clients[i].want == r && Wrote(s.clients[i]);
        assert s'.clients[i] == s.clients[i];
      } else {
        assert s'.clients[c].want == r && Wrote(s'.clients[c]);
      }
    }
  }

  lemma ClientStepInv(s: State, step: Step)
    requires Inv(s) && Enabled(s, step) && !step.OtherEdges?
    ensures Inv(Apply(s, step))
  {
    var s' := Apply(s, step);
    var c, client, moved := step.c, s.clients[step.c], s'.clients[step.c];
    assert Sound(s.db, s.lawful, client);
    MovesOnce(s.db, s.lawful, client, step);
    MoverSound(s.db, s.lawful, client, step);
    WritesAreConsistent(s.db, s.lawful, client, moved);
    WritersRemembered(s, c, moved);
    forall i | 0 <= i < |s'.clients| && i != c
      ensures Sound(s'.db, s'.lawful, s'.clients[i])
      ensures Apart(moved, s'.clients[i]) && Apart(s'.clients[i], moved)
    {
      assert Sound(s.db, s.lawful, s.clients[i]) && Apart(client, s.clients[i]);
      BystanderSound(s.db, s.lawful, client, moved, s.clients[i]);
      MoverApart(s.db, s.lawful, client, moved, s.clients[i]);
    }
  }

  lemma OtherStepInv(s: State, step: Step)
    requires Inv(s) && Enabled(s, step) && step.OtherEdges?
    ensures Inv(Apply(s, step))
  {
    OtherEdgesConsistent(s.db, step.edges);
    forall i | 0 <= i < |s.clients|
      ensures Sound(Apply(s, step).db, s.lawful, s.clients[i])
    {
      assert Sound(s.db, s.lawful, s.clients[i]);
      OtherEdgesSound(s.db, s.lawful, step.edges, s.clients[i]);
    }
    forall r | r in s.db.rows
      ensures WrittenBySome(Apply(s, step), r)
    {
      assert WrittenBySome(s, r);
    }
  }

  lemma StepInv(s: State, step: Step)
    requires Inv(s) && Enabled(s, step)
    ensures Inv(Apply(s, step))
  {
    if step.OtherEdges? {
      OtherStepInv(s, step);
    } else {
      ClientStepInv(s, step);
    }
  }

  // ----- every run -----

  lemma {:induction false} RunInv(s: State, steps: seq<Step>)
    requires Inv(s) && Run(s, steps)
    ensures Inv(After(s, steps))
    decreases |steps|
  {
    if steps != [] {
      StepInv(s, steps[0]);
      RunInv(Apply(s, steps[0]), steps[1..]);
    }
  }

  /** Stored rows and edges and received replies are final. */
  lemma {:induction false} StoredForever(s: State, steps: seq<Step>)
    requires Run(s, steps)
    ensures Within(s.db, After(s, steps).db)
    ensures |After(s, steps).clients| == |s.clients|
    ensures forall i :: 0 <= i < |s.clients| ==> After(s, steps).clients[i].want == s.clients[i].want
    ensures forall i :: 0 <= i < |s.clients| && s.clients[i].phase.Replied? ==>
            After(s, steps).clients[i] == s.clients[i]
    decreases |steps|
  {
    if steps != [] {
      StoredForever(Apply(s, steps[0]), steps[1..]);
    }
  }

  lemma {:induction false} RunSplit(s: State, before: seq<Step>, after: seq<Step>)
    requires Run(s, before) && Run(After(s, before), after)
    ensures Run(s, before + after) && After(s, before + after) == After(After(s, before), after)
    decreases |before|
  {
    if before == [] {
      assert before + after == after;
    } else {
      RunSplit(Apply(s, before[0]), before[1..], after);
      assert (before + after)[0] == before[0] && (before + after)[1..] == before[1..] + after;
    }
  }

  /** Exactly one implements edge per row and one row per implements edge. */
  ghost predicate Paired(db: Db) {
    && (forall r :: r in db.rows ==> EdgeOf(r) in db.edges)
    && (forall e :: e in db.edges && e.relation == IMPLEMENTS ==>
          exists r :: r in db.rows && EdgeOf(r) == e && forall q :: q in db.rows && EdgeOf(q) == e ==> q == r)
  }

  /** Whatever the interleaving, stored rows are unique in every key and match implements edges one to one. */
  lemma RowsStayUnique(s: State, steps: seq<Step>)
    requires Start(s) && Run(s, steps)
    ensures var db := After(s, steps).db;
            && (forall r, q :: r in db.rows && q in db.rows && Clash(r, q) ==> r == q)
            && Paired(db)
  {
    StartInv(s);
    RunInv(s, steps);
    var db := After(s, steps).db;
    forall e | e in db.edges && e.relation == IMPLEMENTS
      ensures exists r :: r in db.rows && EdgeOf(r) == e && forall q :: q in db.rows && EdgeOf(q) == e ==> q == r
    {
      var r :| r in db.rows && EdgeOf(r) == e;
      assert forall q :: q in db.rows && EdgeOf(q) == e ==> Clash(r, q);
    }
  }

  /** A success reply means the wanted row and its edge are stored, now and after every later step. */
  lemma SuccessIsDurable(s: State, before: seq<Step>, after: seq<Step>, i: nat)
    requires Start(s) && Run(s, before) && Run(After(s, before), after)
    requires i < |s.clients| && |After(s, before).clients| == |s.clients| && Succeeded(After(s, before).clients[i])
    ensures var want := s.clients[i].want; var db := After(After(s, before), after).db;
            want in db.rows && EdgeOf(want) in db.edges
  {
    StartInv(s);
    RunInv(s, before);
    StoredForever(s, before);
    var mid := After(s, before);
    assert Sound(mid.db, mid.lawful, mid.clients[i]);
    StoredForever(mid, after);
  }

  /** Each stored row was written by one client; two clients whose writes share a key are one client. */
  lemma OneWriterPerRow(s: State, steps: seq<Step>)
    requires Start(s) && Run(s, steps)
    ensures var t := After(s, steps);
            && (forall r :: r in t.db.rows <==> WrittenBySome(t, r))
            && (forall i, j :: 0 <= i < |t.clients| && 0 <= j < |t.clients| && i != j
                               && Wrote(t.clients[i]) && Wrote(t.clients[j]) ==>
                  !Clash(t.clients[i].want, t.clients[j].want))
  {
    StartInv(s);
    RunInv(s, steps);
    var t := After(s, steps);
    forall r | WrittenBySome(t, r)
      ensures r in t.db.rows
    {
      var i :| 0 <= i < |t.clients| && t.clients[i].want == r && Wrote(t.clients[i]);
      assert Sound(t.db, t.lawful, t.clients[i]);
    }
    forall i, j | 0 <= i < |t.clients| && 0 <= j < |t.clients| && i != j && Wrote(t.clients[i]) && Wrote(t.clients[j])
      ensures !Clash(t.clients[i].want, t.clients[j].want)
    {
      assert Apart(t.clients[i], t.clients[j]);
    }
  }

  ghost predicate FirstSuccess(c: Client) {
    c.phase == Replied(Committed(false), true)
  }

  /** At most one reply per directed pair, request or receipt is not a replay. */
  lemma OneFirstSuccess(s: State, steps: seq<Step>, i: nat, j: nat)
    requires Start(s) && Run(s, steps) && i < |s.clients| && j < |s.clients| && |After(s, steps).clients| == |s.clients|
    requires FirstSuccess(After(s, steps).clients[i]) && FirstSuccess(After(s, steps).clients[j])
    requires Clash(s.clients[i].want, s.clients[j].want)
    ensures i == j
  {
    StoredForever(s, steps);
    OneWriterPerRow(s, steps);
  }

  /** A different authority under any shared key is final: its rival never succeeds. */
  lemma RivalNeverSucceeds(s: State, before: seq<Step>, after: seq<Step>, i: nat, r: Row)
    requires Start(s) && Run(s, before) && Run(After(s, before), after) && i < |s.clients|
    requires r in After(s, before).db.rows && Clash(r, s.clients[i].want) && r != s.clients[i].want
    ensures |After(After(s, before), after).clients| == |s.clients|
    ensures !Succeeded(After(After(s, before), after).clients[i])
  {
    StartInv(s);
    RunInv(s, before);
    RunInv(After(s, before), after);
    StoredForever(s, before);
    StoredForever(After(s, before), after);
    var t := After(After(s, before), after);
    assert Sound(t.db, t.lawful, t.clients[i]);
  }

  // ----- losing to an identical winner -----

  /** The row is stored and this attempt's snapshot, if it has one, shows it. */
  ghost predicate WillReplay(db: Db, c: Client) {
    && c.want in db.rows
    && (c.phase.Ready? || ((c.phase.Begun? || c.phase.Replaying?) && c.want in c.phase.snap.rows)
        || c.phase == Replied(Committed(true), false))
  }

  lemma StaysOnReplay(db: Db, lawful: set<Row>, client: Client, step: Step)
    requires Consistent(db) && Sound(db, lawful, client) && WillReplay(db, client)
    requires !step.OtherEdges? && !step.Abort? && Able(lawful, client, step)
    ensures WillReplay(db, client.(phase := NextPhase(db, lawful, client, step)))
  {
    if step.Load? {
      MatchedIsStored(client.phase.snap, client.want);
      EdgeIsThere(client.phase.snap, client.want);
    }
  }

  ghost predicate NoErrorFor(c: nat, steps: seq<Step>) {
    forall k :: 0 <= k < |steps| && steps[k].Abort? ==> steps[k].c != c
  }

  /**
   Once an identical row is committed, a client that is between attempts replays it: with
   no other error its next attempt can only lead to a replayed success.
   */
  lemma {:induction false} LoserReplays(s: State, steps: seq<Step>, c: nat)
    requires Inv(s) && Run(s, steps) && c < |s.clients| && WillReplay(s.db, s.clients[c]) && NoErrorFor(c, steps)
    ensures |After(s, steps).clients| == |s.clients| && WillReplay(After(s, steps).db, After(s, steps).clients[c])
    ensures After(s, steps).clients[c].phase.Replied? ==>
            After(s, steps).clients[c].phase == Replied(Committed(true), false)
    decreases |steps|
  {
    if steps != [] {
      var step := steps[0];
      StepInv(s, step);
      assert Sound(s.db, s.lawful, s.clients[c]);
      if !step.OtherEdges? && step.c == c {
        assert !steps[0].Abort?;
        StaysOnReplay(s.db, s.lawful, s.clients[c], step);
      }
      NoErrorRest(c, steps);
      LoserReplays(Apply(s, step), steps[1..], c);
    }
  }

  /** Nothing but the client's own three steps is needed, and they are always possible. */
  lemma ReplayTakesThreeSteps(s: State, c: nat)
    requires Inv(s) && c < |s.clients| && s.clients[c].phase.Ready? && s.clients[c].want in s.db.rows
    ensures Run(s, [Begin(c), Load(c), Commit(c)])
    ensures After(s, [Begin(c), Load(c), Commit(c)]) ==
            s.(clients := s.clients[c := s.clients[c].(phase := Replied(Committed(true), false))])
  {
    var s1 := Apply(s, Begin(c));
    MatchedIsStored(s.db, s.clients[c].want);
    EdgeIsThere(s.db, s.clients[c].want);
    var s2 := Apply(s1, Load(c));
    assert s2.clients[c].phase.Replaying?;
    var s3 := Apply(s2, Commit(c));
    var steps := [Begin(c), Load(c), Commit(c)];
    assert steps[1..] == [Load(c), Commit(c)] && steps[1..][1..] == [Commit(c)] && steps[1..][1..][1..] == [];
    assert Run(s2, [Commit(c)]) && After(s2, [Commit(c)]) == s3;
    assert Run(s1, [Load(c), Commit(c)]) && After(s1, [Load(c), Commit(c)]) == s3;
  }

  // ----- from the start to the replay -----

  /** Another authority under a shared key, or a foreign edge in the way: the wanted row can never be stored. */
  ghost predicate Hopeless(db: Db, want: Row) {
    || (exists r :: r in db.rows && Clash(r, want) && r != want)
    || (exists e :: e in db.edges && EdgeClash(e, EdgeOf(want)) && e != EdgeOf(want))
  }

  lemma StoredIsNotHopeless(db: Db, want: Row)
    requires Consistent(db) && want in db.rows
    ensures !Hopeless(db, want)
  {
    EdgeIsThere(db, want);
  }

  /** Without other errors only the first attempt can meet an identical row it did not see. */
  ghost predicate FirstOrDecided(db: Db, c: Client) {
    || ((c.phase.Ready? || InTransaction(c.phase)) && c.phase.left == ATTEMPTS)
    || c.phase.Replied? || WillReplay(db, c) || Hopeless(db, c.want)
  }

  lemma FirstOrDecidedStep(db: Db, lawful: set<Row>, client: Client, step: Step)
    requires Consistent(db) && Sound(db, lawful, client) && FirstOrDecided(db, client)
    requires !step.OtherEdges? && !step.Abort? && Able(lawful, client, step)
    ensures FirstOrDecided(db, client.(phase := NextPhase(db, lawful, client, step)))
  {
    if WillReplay(db, client) {
      StaysOnReplay(db, lawful, client, step);
    } else if step.InsertEdge? {
      if e :| e in db.edges && EdgeClash(e, EdgeOf(client.want)) {
        assert e.relation == IMPLEMENTS ==> exists r :: r in db.rows && EdgeOf(r) == e;
      }
    }
  }

  lemma FirstOrDecidedLater(db: Db, db': Db, c: Client)
    requires Within(db, db') && FirstOrDecided(db, c)
    ensures FirstOrDecided(db', c)
  {
  }

  lemma {:induction false} FirstOrDecidedRun(s: State, steps: seq<Step>, c: nat)
    requires Inv(s) && Run(s, steps) && c < |s.clients| && NoErrorFor(c, steps) && FirstOrDecided(s.db, s.clients[c])
    ensures Inv(After(s, steps)) && |After(s, steps).clients| == |s.clients|
    ensures FirstOrDecided(After(s, steps).db, After(s, steps).clients[c])
    decreases |steps|
  {
    if steps != [] {
      var step, s' := steps[0], Apply(s, steps[0]);
      StepInv(s, step);
      assert Sound(s.db, s.lawful, s.clients[c]);
      if !step.OtherEdges? && step.c == c {
        assert !steps[0].Abort?;
        FirstOrDecidedStep(s.db, s.lawful, s.clients[c], step);
      }
      var moved := s'.clients[c];
      FirstOrDecidedLater(s.db, s'.db, moved);
      NoErrorRest(c, steps);
      FirstOrDecidedRun(s', steps[1..], c);
    }
  }

  lemma NoErrorRest(c: nat, steps: seq<Step>)
    requires steps != [] && NoErrorFor(c, steps)
    ensures NoErrorFor(c, steps[1..])
  {
    forall k | 0 <= k < |steps[1..]| && steps[1..][k].Abort?
      ensures steps[1..][k].c != c
    {
      assert steps[k + 1] == steps[1..][k];
    }
  }

  /** A stored row means that nobody holds a clashing one, so the losing insert does not wait; it fails and is
      retried. */
  lemma LosingInsert(s: State, c: nat)
    requires Inv(s) && c < |s.clients| && s.clients[c].phase.Inserting? && s.clients[c].want in s.db.rows
    requires FirstOrDecided(s.db, s.clients[c])
    ensures Enabled(s, InsertRow(c))
    ensures Apply(s, InsertRow(c)) == s.(clients := s.clients[c := s.clients[c].(phase := Ready(ATTEMPTS - 1))])
  {
    var want := s.clients[c].want;
    forall i | 0 <= i < |s.clients| && i != c && HoldsRow(s.clients[i])
      ensures !Clash(s.clients[i].want, want)
    {
      assert Sound(s.db, s.lawful, s.clients[i]);
    }
    StoredIsNotHopeless(s.db, want);
    assert Clash(want, want);
  }

  /** From the start and without other errors, the client is about to insert a row an identical winner has committed. */
  ghost predicate Losing(s: State, before: seq<Step>, c: nat) {
    && Start(s) && Run(s, before) && c < |s.clients| && NoErrorFor(c, before)
    && c < |After(s, before).clients|
    && var t := After(s, before);
       t.clients[c].phase.Inserting? && t.clients[c].want in t.db.rows
  }

  /**
   Whatever all clients did before and do after, the losing insert and what follows it can
   only end in a replayed success.
   */
  lemma LosingInsertReplays(s: State, before: seq<Step>, after: seq<Step>, c: nat)
    requires Losing(s, before, c) && Run(After(s, before), [InsertRow(c)] + after) && NoErrorFor(c, after)
    ensures var u := After(After(s, before), [InsertRow(c)] + after);
            && |u.clients| == |s.clients|
            && (u.clients[c].phase.Replied? ==> u.clients[c].phase == Replied(Committed(true), false))
  {
    StartInv(s);
    FirstOrDecidedRun(s, before, c);
    var t := After(s, before);
    LosingInsert(t, c);
    StepInv(t, InsertRow(c));
    assert ([InsertRow(c)] + after)[1..] == after;
    LoserReplays(Apply(t, InsertRow(c)), after, c);
  }

  /** And it can always end so at once: the insert does not wait, fails, and three more own steps replay. */
  lemma LosingInsertRecovers(s: State, before: seq<Step>, c: nat)
    requires Losing(s, before, c)
    ensures var t, own := After(s, before), [InsertRow(c), Begin(c), Load(c), Commit(c)];
            && Run(t, own)
            && After(t, own) == t.(clients := t.clients[c := t.clients[c].(phase := Replied(Committed(true), false))])
  {
    StartInv(s);
    FirstOrDecidedRun(s, before, c);
    var t := After(s, before);
    LosingInsert(t, c);
    StepInv(t, InsertRow(c));
    var lost := Apply(t, InsertRow(c));
    ReplayTakesThreeSteps(lost, c);
    var own := [InsertRow(c), Begin(c), Load(c), Commit(c)];
    assert own[1..] == [Begin(c), Load(c), Commit(c)];
    assert lost.clients[c := lost.clients[c].(phase := Replied(Committed(true), false))]
           == t.clients[c := t.clients[c].(phase := Replied(Committed(true), false))];
  }

  /** The attempt's snapshot was taken before a row that shares a key was committed. */
  ghost predicate Stale(db: Db, c: Client) {
    && (c.phase.Begun? || c.phase.Inserting?) && c.want !in c.phase.snap.rows
    && exists r :: r in db.rows && Clash(r, c.want)
  }

  ghost predicate AttemptFailed(c: Client) {
    c.phase.Ready? || (c.phase.Replied? && c.phase.reply.Failed?)
  }

  ghost predicate NoBeginFor(c: nat, steps: seq<Step>) {
    forall k :: 0 <= k < |steps| && steps[k].Begin? ==> steps[k].c != c
  }

  /** Why the retry takes a new snapshot: an attempt that began before the winner committed never succeeds. */
  lemma {:induction false} StaleAttemptFails(s: State, steps: seq<Step>, c: nat)
    requires Inv(s) && Run(s, steps) && c < |s.clients| && NoBeginFor(c, steps)
    requires Stale(s.db, s.clients[c]) || AttemptFailed(s.clients[c])
    ensures |After(s, steps).clients| == |s.clients|
    ensures Stale(After(s, steps).db, After(s, steps).clients[c]) || AttemptFailed(After(s, steps).clients[c])
    decreases |steps|
  {
    if steps != [] {
      var step := steps[0];
      assert steps[0].Begin? ==> steps[0].c != c;
      StepInv(s, step);
      assert NoBeginFor(c, steps[1..]) by {
        forall k | 0 <= k < |steps[1..]| && steps[1..][k].Begin?
          ensures steps[1..][k].c != c
        {
          assert steps[k + 1] == steps[1..][k];
        }
      }
      if !step.OtherEdges? && step.c == c {
        StaleStep(s.db, s.lawful, s.clients[c], step);
      }
      StaleAttemptFails(Apply(s, step), steps[1..], c);
    }
  }

  lemma StaleStep(db: Db, lawful: set<Row>, client: Client, step: Step)
    requires !step.OtherEdges? && !step.Begin? && Able(lawful, client, step)
    requires Stale(db, client) || AttemptFailed(client)
    ensures var moved := client.(phase := NextPhase(db, lawful, client, step));
            !Wrote(moved) && (Stale(db, moved) || AttemptFailed(moved))
  {
    if step.Load? {
      MatchedIsStored(client.phase.snap, client.want);
    }
  }

  // ----- what the checks inside an attempt can find -----

  /** Both checks of the stored edge always pass, so a replay is decided by the row alone. */
  lemma ReplayDecidedByRow(db: Db, lawful: set<Row>, client: Client)
    requires Sound(db, lawful, client) && client.phase.Begun?
    ensures Loaded(client).Replaying? <==> client.want in client.phase.snap.rows
    ensures Loaded(client).Inserting? <==>
            forall r :: r in client.phase.snap.rows ==> !SharesCoordinates(client.want, r)
  {
    var snap, want := client.phase.snap, client.want;
    MatchedIsStored(snap, want);
    if want in snap.rows {
      EdgeIsThere(snap, want);
    }
    if r :| r in snap.rows && SharesCoordinates(want, r) {
      assert r in Matching(snap.rows, want);
    }
  }

  /** With both inserts through, the deferred edge and authority-count checks pass for every lawful packet. */
  lemma DeferredChecksPass(db: Db, lawful: set<Row>, client: Client)
    requires Sound(db, lawful, client) && client.phase.EdgePending?
    ensures DeferredChecks(client.phase.snap, client.want, lawful) <==> client.want in lawful
  {
    var snap, want := client.phase.snap, client.want;
    forall r | r in snap.rows
      ensures r.edge != want.edge
    {
      assert r in db.rows && !Clash(r, want);
    }
    forall e | e in snap.edges
      ensures e.id != want.edge
    {
      assert e in db.edges && !EdgeClash(e, EdgeOf(want));
    }
    assert EdgeOf(want) in snap.edges + {EdgeOf(want)};
    assert want in snap.rows + {want};
    assert (set r | r in snap.rows + {want} && r.edge == want.edge) == {want};
  }

  // ----- attempts -----

  function Begins(steps: seq<Step>, c: nat): nat {
    if steps == [] then 0 else (if steps[0] == Begin(c) then 1 else 0) + Begins(steps[1..], c)
  }

  /** Attempts a client can still begin. */
  function Remaining(c: Client): nat {
    if c.phase.Ready? then c.phase.left
    else if InTransaction(c.phase) && c.phase.left > 0 then c.phase.left - 1
    else 0
  }

  lemma SpendOne(db: Db, lawful: set<Row>, client: Client, step: Step)
    requires !step.OtherEdges? && Able(lawful, client, step) && Sound(db, lawful, client)
    ensures (if step.Begin? then 1 else 0) + Remaining(client.(phase := NextPhase(db, lawful, client, step)))
            <= Remaining(client)
  {
  }

  lemma {:induction false} BeginsSpend(s: State, steps: seq<Step>, c: nat)
    requires Inv(s) && Run(s, steps) && c < |s.clients|
    ensures Begins(steps, c) <= Remaining(s.clients[c])
    decreases |steps|
  {
    if steps != [] {
      StepInv(s, steps[0]);
      assert Sound(s.db, s.lawful, s.clients[c]);
      if !steps[0].OtherEdges? && steps[0].c == c {
        SpendOne(s.db, s.lawful, s.clients[c], steps[0]);
      }
      BeginsSpend(Apply(s, steps[0]), steps[1..], c);
    }
  }

  /** No client begins a fourth attempt. */
  lemma AtMostThreeAttempts(s: State, steps: seq<Step>, c: nat)
    requires Start(s) && Run(s, steps) && c < |s.clients|
    ensures Begins(steps, c) <= ATTEMPTS
  {
    StartInv(s);
    BeginsSpend(s, steps, c);
  }

  // ----- the code around the database -----

  function Request(r: Row): string { r.request }

  function Where(rows: seq<Row>, want: Row): (found: seq<Row>)
    ensures forall r :: r in found <==> r in rows && SharesCoordinates(want, r)
  {
    if rows == [] then []
    else if SharesCoordinates(want, rows[0]) then [rows[0]] + Where(rows[1..], want)
    else Where(rows[1..], want)
  }

  lemma {:induction false} WhereDistinct(rows: seq<Row>, want: Row)
    requires NoDuplicates(rows)
    ensures NoDuplicates(Where(rows, want))
  {
    if rows != [] {
      assert NoDuplicates(rows[1..]);
      WhereDistinct(rows[1..], want);
      assert rows[0] !in rows[1..];
      assert rows[0] !in Where(rows[1..], want);
    }
  }

  /** The selected rows are exactly the matching ones, each once. */
  lemma SelectedAreMatching(rows: seq<Row>, want: Row, selected: seq<Row>)
    requires NoDuplicates(rows) && selected == SortBy(Where(rows, want), Request)
    ensures Elements(selected) == Matching(Elements(rows), want)
    ensures |selected| == |Matching(Elements(rows), want)|
  {
    var found := Where(rows, want);
    WhereDistinct(rows, want);
    SortFacts(found, Request);
    NoDuplicatesSize(found);
    assert Elements(selected) == Elements(found) == Matching(Elements(rows), want);
  }

  /** The lookup query returns at most three rows in request order; a second one is already a conflict. */
  method LoadDerivedAdmissionRecord(rows: seq<Row>, want: Row) returns (stored: Result<Option<Row>, Error>)
    requires NoDuplicates(rows)
    ensures stored.Err? <==> |Matching(Elements(rows), want)| > 1
    ensures stored.Err? ==> stored.error == ReplayConflict
    ensures stored == Ok(None) <==> Matching(Elements(rows), want) == {}
    ensures stored.Ok? && stored.value.Some? ==> Matching(Elements(rows), want) == {stored.value.value}
  {
    var selected := SortBy(Where(rows, want), Request);
    SelectedAreMatching(rows, want, selected);
    var fetched := if |selected| > 3 then selected[..3] else selected;
    var result: Option<Row> := None;
    var count := 0;
    for i := 0 to |fetched|
      invariant count == i <= 1
      invariant result == if i == 0 then None else Some(fetched[0])
    {
      count := count + 1;
      if count != 1 {
        return Err(ReplayConflict);
      }
      result := Some(fetched[i]);
    }
    assert |selected| <= 1;
    assert selected == [] ==> Elements(selected) == {};
    assert |selected| == 1 ==> Elements(selected) == {selected[0]};
    return Ok(result);
  }

  /** The rows as one snapshot shows them decide the reply of an attempt that finds its coordinates. */
  lemma LookUpMeaning(rows: set<Row>, want: Row)
    ensures LookUp(rows, want) == Absent <==> forall r :: r in rows ==> !SharesCoordinates(want, r)
    ensures LookUp(rows, want) == Conflicting <==> exists r :: r in rows && SharesCoordinates(want, r) && r != want
    ensures LookUp(rows, want) == Same <==>
            want in rows && forall r :: r in rows && SharesCoordinates(want, r) ==> r == want
  {
    var found := Matching(rows, want);
    assert forall r :: r in found <==> r in rows && SharesCoordinates(want, r);
    if found != {} && forall r :: r in found ==> r == want {
      var x :| x in found;
      assert found == {want};
    }
  }

  /** The phase a client reaches when its attempts end as `outcomes` says, in order. */
  function Retried(outcomes: seq<Result<bool, Error>>, left: nat): (p: Phase)
    requires |outcomes| == left > 0
    ensures p.Replied?
  {
    match outcomes[0]
    case Ok(replayed) => Replied(Committed(replayed), !replayed)
    case Err(e) => if AfterError(left, e).Ready? then Retried(outcomes[1..], left - 1) else AfterError(left, e)
  }

  /** The retry loop, run against whatever its attempts return, replies what the phases of a client say. */
  method AdmitReviewed(outcomes: seq<Result<bool, Error>>) returns (reply: Reply, ghost attempts: nat)
    requires |outcomes| == ATTEMPTS
    ensures reply == Retried(outcomes, ATTEMPTS).reply
    ensures 1 <= attempts <= ATTEMPTS
    ensures forall k :: 0 <= k < attempts - 1 ==> outcomes[k].Err? && Retry(outcomes[k].error)
    ensures reply == match outcomes[attempts - 1] case Ok(replayed) => Committed(replayed) case Err(e) => Failed(e)
    ensures reply.Failed? && Retry(reply.error) ==> attempts == ATTEMPTS
  {
    var last := Other;
    attempts := 0;
    for i := 0 to ATTEMPTS
      invariant attempts == i
      invariant forall k :: 0 <= k < i ==> outcomes[k].Err? && Retry(outcomes[k].error)
      invariant i > 0 ==> outcomes[i - 1] == Err(last)
      invariant i < ATTEMPTS ==> Retried(outcomes, ATTEMPTS) == Retried(outcomes[i..], ATTEMPTS - i)
      invariant i == ATTEMPTS ==> Retried(outcomes, ATTEMPTS) == Replied(Failed(last), false)
    {
      attempts := attempts + 1;
      match outcomes[i] {
        case Ok(replayed) =>
          return Committed(replayed), attempts;
        case Err(e) =>
          last := e;
          if !Retry(e) {
            return Failed(last), attempts;
          }
      }
      assert outcomes[i..][1..] == outcomes[i + 1..];
    }
    return Failed(last), attempts;
  }
}
