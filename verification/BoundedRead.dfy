/**
 The bounded graph read: a breadth-first search over stored edges with node, edge and
 depth budgets. Its flag is proved to be exactly the difference between what was read
 and the whole neighbourhood.
 */
module BoundedRead {
  import opened Outcomes
  import opened Ordering
  import opened Evidence
  import opened Identity

  datatype EdgeRow = EdgeRow(id: Id, from: Id, to: Id, relation: Relation, provenance: Provenance) {
    predicate Touches(s: set<Id>) {
      from in s || to in s
    }
  }

  function RowId(e: EdgeRow): Id { e.id }

  // ----- the neighbourhood, independent of any search -----

  /** An empty relation list allows every relation. */
  predicate AllowedRelation(relations: set<Relation>, e: EdgeRow) {
    relations == {} || e.relation in relations
  }

  function AllowedEdges(rows: seq<EdgeRow>, relations: set<Relation>): set<EdgeRow> {
    set e | e in rows && AllowedRelation(relations, e)
  }

  function Touching(es: set<EdgeRow>, s: set<Id>): set<EdgeRow> {
    set e | e in es && e.Touches(s)
  }

  function Ends(es: set<EdgeRow>): set<Id> {
    (set e | e in es :: e.from) + (set e | e in es :: e.to)
  }

  /** Nodes within k undirected hops of the roots. */
  function Ball(es: set<EdgeRow>, roots: set<Id>, k: nat): set<Id> {
    if k == 0 then roots else Ball(es, roots, k - 1) + Ends(Touching(es, Ball(es, roots, k - 1)))
  }

  /** Nodes whose edges a search of depth k has to look at. */
  function Interior(es: set<EdgeRow>, roots: set<Id>, k: nat): set<Id> {
    if k == 0 then {} else Ball(es, roots, k - 1)
  }

  function BallEdges(es: set<EdgeRow>, roots: set<Id>, k: nat): set<EdgeRow> {
    Touching(es, Interior(es, roots, k))
  }

  /** A walk: each edge joins the node before it to the node after it, in either direction. */
  ghost predicate Walk(es: set<EdgeRow>, path: seq<Id>) {
    && |path| > 0
    && forall i :: 0 <= i < |path| - 1 ==> Joined(es, path[i], path[i + 1])
  }

  ghost predicate Joined(es: set<EdgeRow>, x: Id, y: Id) {
    exists e :: e in es && ((e.from == x && e.to == y) || (e.from == y && e.to == x))
  }

  lemma {:induction false} WalkStaysInBall(es: set<EdgeRow>, roots: set<Id>, path: seq<Id>)
    requires Walk(es, path) && path[0] in roots
    ensures path[|path| - 1] in Ball(es, roots, |path| - 1)
  {
    if |path| > 1 {
      var n := |path| - 2;
      WalkStaysInBall(es, roots, path[..n + 1]);
      assert Joined(es, path[n], path[n + 1]);
    }
  }

  lemma {:induction false} BallHasWalk(es: set<EdgeRow>, roots: set<Id>, k: nat, x: Id) returns (path: seq<Id>)
    requires x in Ball(es, roots, k)
    ensures Walk(es, path) && path[0] in roots && path[|path| - 1] == x && |path| - 1 <= k
  {
    if k == 0 {
      path := [x];
    } else {
      var inner := Ball(es, roots, k - 1);
      if x in inner {
        path := BallHasWalk(es, roots, k - 1, x);
      } else {
        var e :| e in Touching(es, inner) && (e.from == x || e.to == x);
        var y := if e.from == x then e.to else e.from;
        var before := BallHasWalk(es, roots, k - 1, y);
        assert Joined(es, y, x);
        path := before + [x];
      }
    }
  }

  /** The ball is the set of nodes at the end of a walk of at most k edges from a root. */
  lemma BallIsWalks(es: set<EdgeRow>, roots: set<Id>, k: nat, x: Id)
    ensures x in Ball(es, roots, k) <==>
            exists path :: Walk(es, path) && path[0] in roots && path[|path| - 1] == x && |path| - 1 <= k
  {
    if x in Ball(es, roots, k) {
      var path := BallHasWalk(es, roots, k, x);
    }
    forall path | Walk(es, path) && path[0] in roots && path[|path| - 1] == x && |path| - 1 <= k
      ensures x in Ball(es, roots, k)
    {
      WalkStaysInBall(es, roots, path);
      BallGrows(es, es, roots, |path| - 1, k);
    }
  }

  lemma {:induction false} BallGrows(es: set<EdgeRow>, es': set<EdgeRow>, roots: set<Id>, k: nat, k': nat)
    requires es <= es' && k <= k'
    ensures Ball(es, roots, k) <= Ball(es', roots, k')
    decreases k'
  {
    if k < k' {
      BallGrows(es, es', roots, k, k' - 1);
    } else if k > 0 {
      BallGrows(es, es', roots, k - 1, k' - 1);
      EndsGrow(es, es', Ball(es, roots, k - 1), Ball(es', roots, k' - 1));
    }
  }

  lemma EndsGrow(es: set<EdgeRow>, es': set<EdgeRow>, s: set<Id>, s': set<Id>)
    requires es <= es' && s <= s'
    ensures Ends(Touching(es, s)) <= Ends(Touching(es', s'))
  {
    assert Touching(es, s) <= Touching(es', s');
  }

  /** Once a layer adds nothing, no later layer does. */
  lemma {:induction false} BallSettles(es: set<EdgeRow>, roots: set<Id>, d: nat, k: nat)
    requires d <= k && Ball(es, roots, d) == Interior(es, roots, d)
    ensures Ball(es, roots, k) == Ball(es, roots, d)
    ensures BallEdges(es, roots, k) == BallEdges(es, roots, d)
    decreases k
  {
    if d < k {
      BallSettles(es, roots, d, k - 1);
      if d == 0 {
        assert Touching(es, {}) == {};
      }
    }
  }

  // ----- the query -----

  predicate Selects(frontier: set<Id>, relations: set<Relation>, seen: set<Id>, e: EdgeRow) {
    e.Touches(frontier) && AllowedRelation(relations, e) && e.id !in seen
  }

  function Where(rows: seq<EdgeRow>, frontier: set<Id>, relations: set<Relation>, seen: set<Id>): seq<EdgeRow> {
    if rows == [] then []
    else if Selects(frontier, relations, seen, rows[0]) then [rows[0]] + Where(rows[1..], frontier, relations, seen)
    else Where(rows[1..], frontier, relations, seen)
  }

  lemma {:induction false} WhereMembers(rows: seq<EdgeRow>, frontier: set<Id>, relations: set<Relation>, seen: set<Id>)
    ensures forall e :: e in Where(rows, frontier, relations, seen) <==>
            e in rows && Selects(frontier, relations, seen, e)
    ensures DistinctKeys(rows, RowId) ==> DistinctKeys(Where(rows, frontier, relations, seen), RowId)
  {
    if rows != [] {
      var rest := Where(rows[1..], frontier, relations, seen);
      WhereMembers(rows[1..], frontier, relations, seen);
      assert rows == [rows[0]] + rows[1..];
      if DistinctKeys(rows, RowId) {
        assert DistinctKeys(rows[1..], RowId);
        forall e | e in rest
          ensures RowId(e) != RowId(rows[0])
        {
          var i :| 0 <= i < |rows[1..]| && rows[1..][i] == e;
          assert RowId(rows[i + 1]) != RowId(rows[0]);
        }
      }
    }
  }

  /** The first `limit` matching rows in id order, and whether there are more. */
  method QueryEdges(
    rows: seq<EdgeRow>, frontier: set<Id>, relations: set<Relation>, seen: set<Id>, limit: nat)
    returns (batch: seq<EdgeRow>, hasMore: bool)
    ensures var all := SortBy(Where(rows, frontier, relations, seen), RowId);
            && hasMore == (|all| > limit)
            && batch == if |all| > limit then all[..limit] else all
  {
    var all := SortBy(Where(rows, frontier, relations, seen), RowId);
    var fetched := if |all| > limit + 1 then all[..limit + 1] else all;
    batch := [];
    for i := 0 to |fetched|
      invariant i <= limit && batch == fetched[..i]
    {
      if |batch| == limit {
        return batch, true;
      }
      batch := batch + [fetched[i]];
    }
    hasMore := false;
  }

  /** What one query contributes: fresh edges at the frontier, all of them unless there are more. */
  ghost predicate BatchOf(
    es: set<EdgeRow>, frontier: set<Id>, seen: set<Id>, limit: nat, batch: seq<EdgeRow>, hasMore: bool)
  {
    && |batch| <= limit
    && (forall e :: e in batch ==> e in es && e.Touches(frontier) && e.id !in seen)
    && (!hasMore ==> forall e :: e in es && e.Touches(frontier) && e.id !in seen ==> e in batch)
    && (hasMore ==> |batch| == limit && exists e :: Missed(es, frontier, seen, batch, e))
  }

  ghost predicate Missed(es: set<EdgeRow>, frontier: set<Id>, seen: set<Id>, batch: seq<EdgeRow>, e: EdgeRow) {
    e in es && e.Touches(frontier) && e.id !in seen && forall b :: b in batch ==> b.id != e.id
  }

  lemma QueryIsBatch(
    rows: seq<EdgeRow>, frontier: set<Id>, relations: set<Relation>, seen: set<Id>, limit: nat,
    batch: seq<EdgeRow>, hasMore: bool)
    requires DistinctKeys(rows, RowId)
    requires var all := SortBy(Where(rows, frontier, relations, seen), RowId);
             && hasMore == (|all| > limit)
             && batch == if |all| > limit then all[..limit] else all
    ensures BatchOf(AllowedEdges(rows, relations), frontier, seen, limit, batch, hasMore)
  {
    var found := Where(rows, frontier, relations, seen);
    var all := SortBy(found, RowId);
    WhereMembers(rows, frontier, relations, seen);
    SortFacts(found, RowId);
    DistinctKeysPermuted(found, all, RowId);
    if hasMore {
      var e := all[limit];
      forall b | b in batch
        ensures b.id != e.id
      {
        var i :| 0 <= i < limit && all[i] == b;
        assert RowId(all[i]) != RowId(all[limit]);
      }
      assert e in all && e in found;
      assert Missed(AllowedEdges(rows, relations), frontier, seen, batch, e);
    }
  }

  // ----- absorbing one batch -----

  function Recorded(edges: map<Id, EdgeRow>): set<EdgeRow> {
    set id | id in edges :: edges[id]
  }

  function RowSet(batch: seq<EdgeRow>): set<EdgeRow> {
    set e | e in batch
  }

  /** Edges are filed under their own ids and never lose an end. */
  ghost predicate Filed(edges: map<Id, EdgeRow>, selected: set<Id>) {
    forall id :: id in edges ==> edges[id].id == id && edges[id].from in selected && edges[id].to in selected
  }

  /** Every newly selected node hangs off the frontier by a recorded edge. */
  ghost predicate Linked(frontier: set<Id>, selected: set<Id>, selected': set<Id>, recorded: set<EdgeRow>) {
    forall x :: x in selected' && x !in selected ==> exists f :: f in frontier && Joined(recorded, f, x)
  }

  ghost predicate EndLeftOut(batch: seq<EdgeRow>, selected: set<Id>) {
    exists x :: x in Ends(RowSet(batch)) && x !in selected
  }

  ghost predicate Absorbed(
    frontier: set<Id>, maxNodes: nat, selected: set<Id>, edges: map<Id, EdgeRow>, batch: seq<EdgeRow>,
    selected': set<Id>, edges': map<Id, EdgeRow>, dropped: bool)
  {
    && selected <= selected' && |selected'| <= maxNodes
    && Filed(edges', selected')
    && |edges'| <= |edges| + |batch|
    && Recorded(edges) <= Recorded(edges') <= Recorded(edges) + RowSet(batch)
    && Linked(frontier, selected, selected', Recorded(edges'))
    && (!dropped ==> Recorded(edges') == Recorded(edges) + RowSet(batch))
    && (dropped ==> |selected'| == maxNodes && EndLeftOut(batch, selected'))
  }

  lemma RecordMore(edges: map<Id, EdgeRow>, e: EdgeRow)
    requires e.id !in edges
    ensures Recorded(edges[e.id := e]) == Recorded(edges) + {e}
  {
    forall x | x in Recorded(edges)
      ensures x in Recorded(edges[e.id := e])
    {
      var id :| id in edges && edges[id] == x;
      assert id in edges[e.id := e] && edges[e.id := e][id] == x;
    }
    assert e.id in edges[e.id := e];
  }

  lemma RowSetStep(batch: seq<EdgeRow>, i: nat)
    requires i < |batch|
    ensures RowSet(batch[..i + 1]) == RowSet(batch[..i]) + {batch[i]}
    ensures Ends(RowSet(batch[..i])) <= Ends(RowSet(batch[..i + 1]))
    ensures batch[i].from in Ends(RowSet(batch[..i + 1])) && batch[i].to in Ends(RowSet(batch[..i + 1]))
  {
    assert batch[..i + 1] == batch[..i] + [batch[i]];
    assert batch[i] in RowSet(batch[..i + 1]);
  }

  lemma JoinedGrows(es: set<EdgeRow>, es': set<EdgeRow>, x: Id, y: Id)
    requires es <= es' && Joined(es, x, y)
    ensures Joined(es', x, y)
  {
  }

  lemma LinkOne(frontier: set<Id>, selected: set<Id>, sel: set<Id>, rec: set<EdgeRow>, e: EdgeRow, neighbor: Id)
    requires Linked(frontier, selected, sel, rec) && frontier <= selected <= sel && e.Touches(frontier)
    requires neighbor == if e.from in sel then e.to else e.from
    ensures Linked(frontier, selected, sel + {neighbor}, rec + {e})
  {
    forall x | x in sel + {neighbor} && x !in selected
      ensures exists f :: f in frontier && Joined(rec + {e}, f, x)
    {
      if x in sel {
        var f :| f in frontier && Joined(rec, f, x);
        JoinedGrows(rec, rec + {e}, f, x);
      } else {
        var f := if e.from == x then e.to else e.from;
        assert e in rec + {e};
        assert f in frontier && Joined(rec + {e}, f, x);
      }
    }
  }

  lemma FiledMore(found: map<Id, EdgeRow>, sel: set<Id>, e: EdgeRow, neighbor: Id)
    requires Filed(found, sel) && neighbor == if e.from in sel then e.to else e.from
    requires e.from in sel || e.to in sel
    ensures Filed(found[e.id := e], sel + {neighbor})
  {
  }

  lemma RecordedStep(before: set<EdgeRow>, recorded: set<EdgeRow>, rows: set<EdgeRow>, e: EdgeRow)
    requires before <= recorded <= before + rows
    ensures before <= recorded + {e} <= before + (rows + {e})
    ensures recorded == before + rows ==> recorded + {e} == before + (rows + {e})
  {
  }

  /** One edge is recorded, with its far end selected if it was not. */
  lemma AbsorbOne(
    frontier: set<Id>, maxNodes: nat, selected: set<Id>, edges: map<Id, EdgeRow>, batch: seq<EdgeRow>, i: nat,
    sel: set<Id>, found: map<Id, EdgeRow>, dropped: bool, neighbor: Id)
    requires i < |batch| && Absorbed(frontier, maxNodes, selected, edges, batch[..i], sel, found, dropped)
    requires frontier <= selected && batch[i].Touches(frontier) && batch[i].id !in found
    requires neighbor == if batch[i].from in sel then batch[i].to else batch[i].from
    requires neighbor in sel || |sel| < maxNodes
    ensures Absorbed(frontier, maxNodes, selected, edges, batch[..i + 1], sel + {neighbor},
                     found[batch[i].id := batch[i]], dropped)
  {
    var e := batch[i];
    RowSetStep(batch, i);
    RecordMore(found, e);
    RecordedStep(Recorded(edges), Recorded(found), RowSet(batch[..i]), e);
    FiledMore(found, sel, e, neighbor);
    LinkOne(frontier, selected, sel, Recorded(found), e, neighbor);
    if neighbor in sel {
      assert sel + {neighbor} == sel;
    }
    if dropped {
      var x :| x in Ends(RowSet(batch[..i])) && x !in sel;
      assert x in Ends(RowSet(batch[..i + 1]));
    }
  }

  /** An edge whose far end no longer fits is dropped. */
  lemma DropOne(
    frontier: set<Id>, maxNodes: nat, selected: set<Id>, edges: map<Id, EdgeRow>, batch: seq<EdgeRow>, i: nat,
    sel: set<Id>, found: map<Id, EdgeRow>, dropped: bool, neighbor: Id)
    requires i < |batch| && Absorbed(frontier, maxNodes, selected, edges, batch[..i], sel, found, dropped)
    requires neighbor == if batch[i].from in sel then batch[i].to else batch[i].from
    requires neighbor !in sel && |sel| == maxNodes
    ensures Absorbed(frontier, maxNodes, selected, edges, batch[..i + 1], sel, found, true)
  {
    RowSetStep(batch, i);
    assert |batch[..i + 1]| == |batch[..i]| + 1;
    assert neighbor in Ends(RowSet(batch[..i + 1]));
    assert EndLeftOut(batch[..i + 1], sel);
  }

  method AbsorbBatch(
    frontier: set<Id>, maxNodes: nat, selected: set<Id>, edges: map<Id, EdgeRow>, batch: seq<EdgeRow>)
    returns (selected': set<Id>, next: set<Id>, edges': map<Id, EdgeRow>, dropped: bool)
    requires |selected| <= maxNodes && frontier <= selected && Filed(edges, selected)
    requires DistinctKeys(batch, RowId)
    requires forall e :: e in batch ==> e.Touches(frontier) && e.id !in edges
    ensures Absorbed(frontier, maxNodes, selected, edges, batch, selected', edges', dropped)
    ensures next == selected' - selected
  {
    selected', next, edges', dropped := selected, {}, edges, false;
    for i := 0 to |batch|
      invariant Absorbed(frontier, maxNodes, selected, edges, batch[..i], selected', edges', dropped)
      invariant next == selected' - selected
      invariant forall k :: i <= k < |batch| ==> batch[k].id !in edges'
    {
      var edge := batch[i];
      assert edge in batch && batch[i].id !in edges';
      assert forall k :: i < k < |batch| ==> RowId(batch[k]) != RowId(batch[i]);
      var neighbor := edge.from;
      if neighbor in selected' {
        neighbor := edge.to;
      }
      if neighbor !in selected' {
        if |selected'| == maxNodes {
          DropOne(frontier, maxNodes, selected, edges, batch, i, selected', edges', dropped, neighbor);
          dropped := true;
          continue;
        }
        AbsorbOne(frontier, maxNodes, selected, edges, batch, i, selected', edges', dropped, neighbor);
        selected', next := selected' + {neighbor}, next + {neighbor};
      } else {
        AbsorbOne(frontier, maxNodes, selected, edges, batch, i, selected', edges', dropped, neighbor);
        assert selected' + {neighbor} == selected';
      }
      edges' := edges'[edge.id := edge];
    }
    assert batch[..|batch|] == batch;
  }

  // ----- the search -----

  datatype ReadInput = ReadInput(roots: seq<Id>, relations: set<Relation>, maxDepth: nat, maxNodes: nat, maxEdges: nat)

  /** Budgets, filing, and recorded edges that stay inside the neighbourhood and link every selected node. */
  ghost predicate Safe(
    es: set<EdgeRow>, roots: set<Id>, input: ReadInput, depth: nat, selected: set<Id>, edges: map<Id, EdgeRow>)
  {
    && |selected| <= input.maxNodes && |edges| <= input.maxEdges
    && Filed(edges, selected) && roots <= selected
    && Recorded(edges) <= BallEdges(es, roots, depth)
    && selected <= Ball(Recorded(edges), roots, depth)
  }

  ghost predicate Complete(
    es: set<EdgeRow>, roots: set<Id>, depth: nat, selected: set<Id>, edges: map<Id, EdgeRow>)
  {
    selected == Ball(es, roots, depth) && Recorded(edges) == BallEdges(es, roots, depth)
  }

  ghost predicate NodeLeftOut(es: set<EdgeRow>, roots: set<Id>, depth: nat, selected: set<Id>) {
    exists x :: x in Ball(es, roots, depth) && x !in selected
  }

  ghost predicate EdgeLeftOut(es: set<EdgeRow>, roots: set<Id>, depth: nat, edges: map<Id, EdgeRow>) {
    exists e :: e in BallEdges(es, roots, depth) && e !in Recorded(edges)
  }

  /** What holds after `depth` completed layers. */
  ghost predicate Searched(
    es: set<EdgeRow>, roots: set<Id>, input: ReadInput, depth: nat,
    selected: set<Id>, frontier: set<Id>, edges: map<Id, EdgeRow>, truncated: bool)
  {
    && Safe(es, roots, input, depth, selected, edges) && frontier <= selected
    && (!truncated ==>
          && Complete(es, roots, depth, selected, edges)
          && frontier == Ball(es, roots, depth) - Interior(es, roots, depth))
    && (truncated ==> |selected| == input.maxNodes && NodeLeftOut(es, roots, depth, selected))
  }

  lemma SafeInBall(
    es: set<EdgeRow>, roots: set<Id>, input: ReadInput, depth: nat, selected: set<Id>, edges: map<Id, EdgeRow>)
    requires Safe(es, roots, input, depth, selected, edges)
    ensures selected <= Ball(es, roots, depth) && Recorded(edges) <= es
  {
    BallGrows(Recorded(edges), es, roots, depth, depth);
  }

  lemma InteriorInBall(es: set<EdgeRow>, roots: set<Id>, depth: nat)
    ensures Interior(es, roots, depth) <= Ball(es, roots, depth)
    ensures BallEdges(es, roots, depth) <= BallEdges(es, roots, depth + 1)
    ensures Ball(es, roots, depth) <= Ball(es, roots, depth + 1)
  {
    BallGrows(es, es, roots, depth, depth + 1);
    if depth > 0 {
      BallGrows(es, es, roots, depth - 1, depth);
    }
  }

  /** Recorded edges still link every selected node after one more layer. */
  lemma LayerLinked(
    roots: set<Id>, depth: nat, frontier: set<Id>, selected: set<Id>, rec: set<EdgeRow>,
    selected': set<Id>, rec': set<EdgeRow>)
    requires selected <= Ball(rec, roots, depth) && frontier <= selected && rec <= rec'
    requires Linked(frontier, selected, selected', rec')
    ensures selected' <= Ball(rec', roots, depth + 1)
  {
    BallGrows(rec, rec', roots, depth, depth);
    BallGrows(rec, rec', roots, depth, depth + 1);
    var ball := Ball(rec', roots, depth);
    forall x | x in selected' && x !in selected
      ensures x in Ball(rec', roots, depth + 1)
    {
      var f :| f in frontier && Joined(rec', f, x);
      var e :| e in rec' && ((e.from == f && e.to == x) || (e.from == x && e.to == f));
      assert e in Touching(rec', ball);
    }
  }

  /** The safety half of one layer, whatever the query left behind. */
  lemma LayerSafe(
    es: set<EdgeRow>, roots: set<Id>, input: ReadInput, depth: nat,
    selected: set<Id>, frontier: set<Id>, edges: map<Id, EdgeRow>, batch: seq<EdgeRow>,
    selected': set<Id>, edges': map<Id, EdgeRow>, dropped: bool)
    requires Safe(es, roots, input, depth, selected, edges) && frontier <= selected
    requires |batch| <= input.maxEdges - |edges|
    requires forall e :: e in batch ==> e in es && e.Touches(frontier)
    requires Absorbed(frontier, input.maxNodes, selected, edges, batch, selected', edges', dropped)
    ensures Safe(es, roots, input, depth + 1, selected', edges')
    ensures dropped ==> NodeLeftOut(es, roots, depth + 1, selected')
  {
    SafeInBall(es, roots, input, depth, selected, edges);
    InteriorInBall(es, roots, depth);
    LayerLinked(roots, depth, frontier, selected, Recorded(edges), selected', Recorded(edges'));
    assert RowSet(batch) <= BallEdges(es, roots, depth + 1);
    if dropped {
      var x :| x in Ends(RowSet(batch)) && x !in selected';
      var e :| e in RowSet(batch) && (e.from == x || e.to == x);
      assert e in Touching(es, Ball(es, roots, depth));
      assert x in Ball(es, roots, depth + 1);
    }
  }

  /** A full selection stays as it is, so a node once left out stays out. */
  lemma StillLeftOut(
    es: set<EdgeRow>, roots: set<Id>, input: ReadInput, depth: nat, selected: set<Id>, selected': set<Id>)
    requires |selected| == input.maxNodes && NodeLeftOut(es, roots, depth, selected)
    requires selected <= selected' && |selected'| <= input.maxNodes
    ensures |selected'| == input.maxNodes && NodeLeftOut(es, roots, depth + 1, selected')
  {
    SubsetSize(selected, selected');
    SameSizeSubset(selected, selected');
    InteriorInBall(es, roots, depth);
    var x :| x in Ball(es, roots, depth) && x !in selected;
    assert x in Ball(es, roots, depth + 1);
  }

  /** An untruncated layer, stated on the two balls alone. */
  lemma LayerExact(
    es: set<EdgeRow>, inner: set<Id>, ball: set<Id>, frontier: set<Id>, edges: map<Id, EdgeRow>, batch: seq<EdgeRow>,
    selected: set<Id>, edges': map<Id, EdgeRow>)
    requires Recorded(edges) == Touching(es, inner) && frontier == ball - inner
    requires forall e :: e in es && e.Touches(frontier) && e.id !in edges ==> e in batch
    requires forall e, id :: e in es && id in edges && id == e.id ==> edges[id] == e
    requires Recorded(edges') == Recorded(edges) + RowSet(batch) && Recorded(edges') <= Touching(es, ball)
    requires ball <= selected <= ball + Ends(Touching(es, ball)) && Filed(edges', selected)
    ensures Recorded(edges') == Touching(es, ball)
    ensures selected == ball + Ends(Touching(es, ball))
  {
    forall e | e in Touching(es, ball)
      ensures e in Recorded(edges')
    {
      if e.Touches(inner) {
        assert e in Touching(es, inner);
      } else if e.id in edges {
        assert e in Recorded(edges);
      } else {
        assert e in RowSet(batch);
      }
    }
    EndsSelected(edges', selected, Touching(es, ball));
  }

  /** An untruncated layer adds exactly the next layer of the neighbourhood. */
  lemma LayerComplete(
    es: set<EdgeRow>, roots: set<Id>, depth: nat,
    selected: set<Id>, frontier: set<Id>, edges: map<Id, EdgeRow>, batch: seq<EdgeRow>,
    selected': set<Id>, edges': map<Id, EdgeRow>)
    requires Complete(es, roots, depth, selected, edges)
    requires frontier == Ball(es, roots, depth) - Interior(es, roots, depth)
    requires forall e :: e in es && e.Touches(frontier) && e.id !in edges ==> e in batch
    requires forall e, id :: e in es && id in edges && id == e.id ==> edges[id] == e
    requires selected <= selected' && Recorded(edges') == Recorded(edges) + RowSet(batch)
    requires Recorded(edges') <= BallEdges(es, roots, depth + 1)
    requires selected' <= Ball(es, roots, depth + 1) && Filed(edges', selected')
    ensures Complete(es, roots, depth + 1, selected', edges')
  {
    var ball := Ball(es, roots, depth);
    LayerExact(es, Interior(es, roots, depth), ball, frontier, edges, batch, selected', edges');
  }

  lemma EndsSelected(edges: map<Id, EdgeRow>, selected: set<Id>, es: set<EdgeRow>)
    requires Filed(edges, selected) && es <= Recorded(edges)
    ensures Ends(es) <= selected
  {
    forall e | e in es
      ensures e.from in selected && e.to in selected
    {
      var id :| id in edges && edges[id] == e;
    }
  }

  /** Nothing was left out: the search stopped by itself or by reaching its depth. */
  lemma StoppedComplete(
    es: set<EdgeRow>, roots: set<Id>, depth: nat, maxDepth: nat,
    selected: set<Id>, frontier: set<Id>, edges: map<Id, EdgeRow>)
    requires Complete(es, roots, depth, selected, edges)
    requires frontier == Ball(es, roots, depth) - Interior(es, roots, depth)
    requires depth <= maxDepth && (depth == maxDepth || frontier == {})
    ensures Complete(es, roots, maxDepth, selected, edges)
  {
    if frontier == {} {
      InteriorInBall(es, roots, depth);
      SettledAt(es, roots, depth);
      BallSettles(es, roots, depth, maxDepth);
    }
  }

  lemma SettledAt(es: set<EdgeRow>, roots: set<Id>, depth: nat)
    requires Ball(es, roots, depth) - Interior(es, roots, depth) == {}
    ensures Ball(es, roots, depth) == Interior(es, roots, depth)
  {
    InteriorInBall(es, roots, depth);
    forall x | x in Ball(es, roots, depth)
      ensures x in Interior(es, roots, depth)
    {
      assert x !in Ball(es, roots, depth) - Interior(es, roots, depth);
    }
  }

  lemma SearchStart(es: set<EdgeRow>, roots: set<Id>, input: ReadInput)
    requires |roots| <= input.maxNodes
    ensures Searched(es, roots, input, 0, roots, roots, map[], false)
  {
    assert Touching(es, {}) == {};
    assert Recorded(map[]) == {};
  }

  lemma {:induction false} Deeper(
    es: set<EdgeRow>, roots: set<Id>, input: ReadInput, depth: nat, maxDepth: nat, selected: set<Id>,
    edges: map<Id, EdgeRow>)
    requires depth <= maxDepth && Safe(es, roots, input, depth, selected, edges)
    ensures Safe(es, roots, input, maxDepth, selected, edges)
    ensures NodeLeftOut(es, roots, depth, selected) ==> NodeLeftOut(es, roots, maxDepth, selected)
    ensures EdgeLeftOut(es, roots, depth, edges) ==> EdgeLeftOut(es, roots, maxDepth, edges)
    decreases maxDepth - depth
  {
    if depth < maxDepth {
      InteriorInBall(es, roots, depth);
      BallGrows(Recorded(edges), Recorded(edges), roots, depth, depth + 1);
      if NodeLeftOut(es, roots, depth, selected) {
        var x :| x in Ball(es, roots, depth) && x !in selected;
        assert x in Ball(es, roots, depth + 1);
      }
      if EdgeLeftOut(es, roots, depth, edges) {
        var e :| e in BallEdges(es, roots, depth) && e !in Recorded(edges);
        assert e in BallEdges(es, roots, depth + 1);
      }
      Deeper(es, roots, input, depth + 1, maxDepth, selected, edges);
    }
  }

  /** The neighbourhood has more nodes or more edges than the budgets allow. */
  ghost predicate Overfull(es: set<EdgeRow>, roots: set<Id>, depth: nat, maxNodes: int, maxEdges: int) {
    |Ball(es, roots, depth)| > maxNodes || |BallEdges(es, roots, depth)| > maxEdges
  }

  /** Filed edges are recorded once each. */
  lemma {:induction false} RecordedSize(edges: map<Id, EdgeRow>)
    requires forall id :: id in edges ==> edges[id].id == id
    ensures |Recorded(edges)| == |edges|
    decreases edges.Keys
  {
    if edges == map[] {
      assert Recorded(edges) == {};
    } else {
      var id :| id in edges;
      var rest := edges - {id};
      RecordedSize(rest);
      assert edges == rest[id := edges[id]];
      RecordMore(rest, edges[id]);
      assert edges[id] !in Recorded(rest);
    }
  }

  lemma OverfullGrows(es: set<EdgeRow>, roots: set<Id>, input: ReadInput, depth: nat, depth': nat)
    requires depth <= depth' && Overfull(es, roots, depth, input.maxNodes, input.maxEdges)
    ensures Overfull(es, roots, depth', input.maxNodes, input.maxEdges)
  {
    BallGrows(es, es, roots, depth, depth');
    BallEdgesGrow(es, roots, depth, depth');
    SubsetSize(Ball(es, roots, depth), Ball(es, roots, depth'));
    SubsetSize(BallEdges(es, roots, depth), BallEdges(es, roots, depth'));
  }

  lemma BallEdgesGrow(es: set<EdgeRow>, roots: set<Id>, depth: nat, depth': nat)
    requires depth <= depth'
    ensures BallEdges(es, roots, depth) <= BallEdges(es, roots, depth')
  {
    if depth > 0 {
      BallGrows(es, es, roots, depth - 1, depth' - 1);
    }
  }

  /** A full selection that leaves out a node of the ball is smaller than the ball. */
  lemma LeftOutOverfull(es: set<EdgeRow>, roots: set<Id>, input: ReadInput, depth: nat, selected: set<Id>)
    requires selected <= Ball(es, roots, depth) && |selected| == input.maxNodes
             && NodeLeftOut(es, roots, depth, selected)
    ensures Overfull(es, roots, depth, input.maxNodes, input.maxEdges)
  {
    var x :| x in Ball(es, roots, depth) && x !in selected;
    SubsetSize(selected + {x}, Ball(es, roots, depth));
  }

  /** A whole neighbourhood fits its budgets. */
  lemma CompleteFits(
    es: set<EdgeRow>, roots: set<Id>, input: ReadInput, selected: set<Id>, edges: map<Id, EdgeRow>)
    requires Safe(es, roots, input, input.maxDepth, selected, edges)
    requires Complete(es, roots, input.maxDepth, selected, edges)
    ensures !Overfull(es, roots, input.maxDepth, input.maxNodes, input.maxEdges)
  {
    RecordedSize(edges);
  }

  /** A query cut off at the edge budget: recorded, fetched and missed edges together exceed it. */
  lemma MissedOverfull(
    es: set<EdgeRow>, roots: set<Id>, input: ReadInput, depth: nat,
    selected: set<Id>, frontier: set<Id>, edges: map<Id, EdgeRow>, batch: seq<EdgeRow>)
    requires Safe(es, roots, input, depth, selected, edges) && frontier <= selected && DistinctKeys(batch, RowId)
    requires BatchOf(es, frontier, edges.Keys, input.maxEdges - |edges|, batch, true)
    ensures Overfull(es, roots, depth + 1, input.maxNodes, input.maxEdges)
  {
    var recorded := Recorded(edges);
    var e := MissedEdge(es, frontier, edges.Keys, input.maxEdges - |edges|, batch);
    var all := recorded + RowSet(batch) + {e};
    SafeInBall(es, roots, input, depth, selected, edges);
    InteriorInBall(es, roots, depth);
    assert all <= BallEdges(es, roots, depth + 1);
    RecordedSize(edges);
    RowSetSize(batch);
    assert recorded !! RowSet(batch);
    assert e !in recorded + RowSet(batch);
    assert |all| == |edges| + |batch| + 1;
    SubsetSize(all, BallEdges(es, roots, depth + 1));
  }

  lemma MissedEdge(es: set<EdgeRow>, frontier: set<Id>, seen: set<Id>, limit: nat, batch: seq<EdgeRow>)
    returns (e: EdgeRow)
    requires BatchOf(es, frontier, seen, limit, batch, true)
    ensures Missed(es, frontier, seen, batch, e)
  {
    e :| Missed(es, frontier, seen, batch, e);
  }

  lemma RowSetSize(batch: seq<EdgeRow>)
    requires DistinctKeys(batch, RowId)
    ensures |RowSet(batch)| == |batch|
  {
    forall i, j | 0 <= i < j < |batch|
      ensures batch[i] != batch[j]
    {
      assert RowId(batch[i]) != RowId(batch[j]);
    }
    NoDuplicatesSize(batch);
    assert RowSet(batch) == Elements(batch);
  }

  /** The final account of a search: truncated means incomplete, and that the neighbourhood exceeds the budgets. */
  ghost predicate Exact(
    es: set<EdgeRow>, roots: set<Id>, input: ReadInput, selected: set<Id>, edges: map<Id, EdgeRow>, truncated: bool)
  {
    && Safe(es, roots, input, input.maxDepth, selected, edges)
    && (truncated <==> !Complete(es, roots, input.maxDepth, selected, edges))
    && (truncated <==> Overfull(es, roots, input.maxDepth, input.maxNodes, input.maxEdges))
  }

  lemma Incomplete(
    es: set<EdgeRow>, roots: set<Id>, input: ReadInput, depth: nat, selected: set<Id>, edges: map<Id, EdgeRow>)
    requires depth <= input.maxDepth && Safe(es, roots, input, depth, selected, edges)
    requires NodeLeftOut(es, roots, depth, selected) || EdgeLeftOut(es, roots, depth, edges)
    requires Overfull(es, roots, depth, input.maxNodes, input.maxEdges)
    ensures Exact(es, roots, input, selected, edges, true)
  {
    Deeper(es, roots, input, depth, input.maxDepth, selected, edges);
    OverfullGrows(es, roots, input, depth, input.maxDepth);
  }

  /** What one layer leaves behind: the final account if the query had more rows, else the invariant. */
  ghost predicate Advanced(
    es: set<EdgeRow>, roots: set<Id>, input: ReadInput, depth: nat,
    selected: set<Id>, frontier: set<Id>, edges: map<Id, EdgeRow>, truncated: bool, hasMore: bool)
  {
    if hasMore then truncated && Exact(es, roots, input, selected, edges, truncated)
    else Searched(es, roots, input, depth, selected, frontier, edges, truncated)
  }

  /** One layer: query the frontier, absorb the batch, and report whether rows were left in the query. */
  method SearchLayer(
    rows: seq<EdgeRow>, input: ReadInput, ghost depth: nat,
    selected: set<Id>, frontier: set<Id>, edges: map<Id, EdgeRow>, truncated: bool)
    returns (selected': set<Id>, next: set<Id>, edges': map<Id, EdgeRow>, truncated': bool, hasMore: bool)
    requires DistinctKeys(rows, RowId)
    requires Searched(AllowedEdges(rows, input.relations), Elements(input.roots), input, depth,
                      selected, frontier, edges, truncated)
    requires depth < input.maxDepth
    ensures Advanced(AllowedEdges(rows, input.relations), Elements(input.roots), input, depth + 1,
                     selected', next, edges', truncated', hasMore)
  {
    ghost var es, roots := AllowedEdges(rows, input.relations), Elements(input.roots);
    var remaining := input.maxEdges - |edges|;
    var batch, more := QueryEdges(rows, frontier, input.relations, edges.Keys, remaining);
    QueryIsBatch(rows, frontier, input.relations, edges.Keys, remaining, batch, more);
    BatchDistinct(rows, frontier, input.relations, edges.Keys, batch);
    var dropped;
    hasMore := more;
    selected', next, edges', dropped := AbsorbBatch(frontier, input.maxNodes, selected, edges, batch);
    truncated' := truncated || more || dropped;
    LayerSafe(es, roots, input, depth, selected, frontier, edges, batch, selected', edges', dropped);
    if more {
      RowLeftOut(es, roots, input, depth, selected, frontier, edges, batch, edges');
      MissedOverfull(es, roots, input, depth, selected, frontier, edges, batch);
      Incomplete(es, roots, input, depth + 1, selected', edges');
    } else if truncated {
      StillLeftOut(es, roots, input, depth, selected, selected');
    } else if !dropped {
      RowsDetermined(rows, input.relations);
      SafeInBall(es, roots, input, depth, selected, edges);
      EdgesDetermined(es, edges, rows, input.relations);
      SafeInBall(es, roots, input, depth + 1, selected', edges');
      LayerComplete(es, roots, depth, selected, frontier, edges, batch, selected', edges');
    }
  }

  lemma EdgesDetermined(es: set<EdgeRow>, edges: map<Id, EdgeRow>, rows: seq<EdgeRow>, relations: set<Relation>)
    requires es == AllowedEdges(rows, relations) && DistinctKeys(rows, RowId) && Recorded(edges) <= es
    requires forall id :: id in edges ==> edges[id].id == id
    ensures forall e, id :: e in es && id in edges && id == e.id ==> edges[id] == e
  {
    RowsDetermined(rows, relations);
    forall e, id | e in es && id in edges && id == e.id
      ensures edges[id] == e
    {
      assert edges[id] in Recorded(edges);
    }
  }

  ghost predicate WholeNeighbourhood(rows: seq<EdgeRow>, input: ReadInput, selected: set<Id>, edges: map<Id, EdgeRow>) {
    Complete(AllowedEdges(rows, input.relations), Elements(input.roots), input.maxDepth, selected, edges)
  }

  lemma Finished(
    es: set<EdgeRow>, roots: set<Id>, input: ReadInput, depth: nat,
    selected: set<Id>, frontier: set<Id>, edges: map<Id, EdgeRow>, truncated: bool)
    requires Searched(es, roots, input, depth, selected, frontier, edges, truncated)
    requires depth <= input.maxDepth && (depth == input.maxDepth || frontier == {})
    ensures Exact(es, roots, input, selected, edges, truncated)
  {
    Deeper(es, roots, input, depth, input.maxDepth, selected, edges);
    if truncated {
      SafeInBall(es, roots, input, depth, selected, edges);
      LeftOutOverfull(es, roots, input, depth, selected);
      Incomplete(es, roots, input, depth, selected, edges);
    } else {
      StoppedComplete(es, roots, depth, input.maxDepth, selected, frontier, edges);
      CompleteFits(es, roots, input, selected, edges);
    }
  }

  /** The search loop; `depth` is the ghost account of the last completed or cut-off layer. */
  method Search(rows: seq<EdgeRow>, input: ReadInput)
    returns (selected: set<Id>, edges: map<Id, EdgeRow>, truncated: bool)
    requires DistinctKeys(rows, RowId) && |Elements(input.roots)| <= input.maxNodes
    ensures Exact(AllowedEdges(rows, input.relations), Elements(input.roots), input, selected, edges, truncated)
  {
    selected, edges, truncated := Elements(input.roots), map[], false;
    var frontier := Elements(input.roots);
    var depth: nat := 0;
    ghost var es, roots := AllowedEdges(rows, input.relations), Elements(input.roots);
    SearchStart(es, roots, input);
    while depth < input.maxDepth && frontier != {}
      invariant depth <= input.maxDepth
      invariant Searched(es, roots, input, depth, selected, frontier, edges, truncated)
      decreases input.maxDepth - depth
    {
      var hasMore;
      selected, frontier, edges, truncated, hasMore :=
        SearchLayer(rows, input, depth, selected, frontier, edges, truncated);
      depth := depth + 1;
      if hasMore {
        return;
      }
    }
    Finished(es, roots, input, depth, selected, frontier, edges, truncated);
  }

  /**
   The flag is set exactly when the nodes or edges read differ from the whole neighbourhood,
   which is exactly when the neighbourhood exceeds a budget; budgets are always respected,
   recorded edges have both ends selected, and recorded edges alone link every selected node
   to a root within the depth.
   */
  method LoadNeighbourhood(rows: seq<EdgeRow>, input: ReadInput)
    returns (selected: set<Id>, edges: map<Id, EdgeRow>, truncated: bool)
    requires DistinctKeys(rows, RowId)
    requires |Elements(input.roots)| <= input.maxNodes
    ensures truncated <==> !WholeNeighbourhood(rows, input, selected, edges)
    ensures truncated <==> Overfull(AllowedEdges(rows, input.relations), Elements(input.roots),
                                    input.maxDepth, input.maxNodes, input.maxEdges)
    ensures |selected| <= input.maxNodes && |edges| <= input.maxEdges
    ensures Filed(edges, selected)
    ensures Recorded(edges) <= BallEdges(AllowedEdges(rows, input.relations), Elements(input.roots), input.maxDepth)
    ensures selected <= Ball(Recorded(edges), Elements(input.roots), input.maxDepth)
    ensures Elements(input.roots) <= selected
  {
    selected, edges, truncated := Search(rows, input);
    SafeInBall(AllowedEdges(rows, input.relations), Elements(input.roots), input, input.maxDepth, selected, edges);
  }

  lemma RowsDetermined(rows: seq<EdgeRow>, relations: set<Relation>)
    requires DistinctKeys(rows, RowId)
    ensures forall e, e' ::
            e in AllowedEdges(rows, relations) && e' in AllowedEdges(rows, relations) && e.id == e'.id ==> e == e'
  {
    forall e, e' | e in rows && e' in rows && e.id == e'.id
      ensures e == e'
    {
      var i :| 0 <= i < |rows| && rows[i] == e;
      var j :| 0 <= j < |rows| && rows[j] == e';
      assert RowId(rows[i]) == RowId(rows[j]);
    }
  }

  lemma BatchDistinct(
    rows: seq<EdgeRow>, frontier: set<Id>, relations: set<Relation>, seen: set<Id>, batch: seq<EdgeRow>)
    requires DistinctKeys(rows, RowId)
    requires batch <= SortBy(Where(rows, frontier, relations, seen), RowId)
    ensures DistinctKeys(batch, RowId)
  {
    var found := Where(rows, frontier, relations, seen);
    WhereMembers(rows, frontier, relations, seen);
    SortFacts(found, RowId);
    DistinctKeysPermuted(found, SortBy(found, RowId), RowId);
  }

  /** A query that had more rows leaves an edge of the next layer unrecorded. */
  lemma RowLeftOut(
    es: set<EdgeRow>, roots: set<Id>, input: ReadInput, depth: nat,
    selected: set<Id>, frontier: set<Id>, edges: map<Id, EdgeRow>, batch: seq<EdgeRow>, edges': map<Id, EdgeRow>)
    requires Safe(es, roots, input, depth, selected, edges) && frontier <= selected
    requires BatchOf(es, frontier, edges.Keys, input.maxEdges - |edges|, batch, true)
    requires Recorded(edges') <= Recorded(edges) + RowSet(batch)
    ensures EdgeLeftOut(es, roots, depth + 1, edges')
  {
    SafeInBall(es, roots, input, depth, selected, edges);
    var e :| Missed(es, frontier, edges.Keys, batch, e);
    assert e in BallEdges(es, roots, depth + 1);
    assert e !in RowSet(batch);
    assert e !in Recorded(edges);
  }

  // ----- the request -----

  const MAX_ROOTS := 32
  const MAX_DEPTH := 8
  const MAX_NODES := 1024
  const MAX_EDGES := 4096

  /** A request as it arrives: roots may repeat and carry margins, numbers may be anything. */
  datatype ReadRequest = ReadRequest(
    roots: seq<string>, relations: seq<Relation>, maxDepth: int, maxNodes: int, maxEdges: int)

  predicate RequestAcceptable(q: ReadRequest) {
    && 0 < |q.roots| <= MAX_ROOTS && 0 <= q.maxDepth <= MAX_DEPTH && 1 <= q.maxNodes <= MAX_NODES
    && 0 <= q.maxEdges <= MAX_EDGES && (q.maxDepth > 0 ==> q.maxEdges > 0)
    && (forall i :: 0 <= i < |q.roots| ==> HasNodePrefix(TrimSpace(q.roots[i])))
    && |Elements(Trimmed(q.roots))| <= q.maxNodes
  }

  /** Roots trimmed, each once and in byte order; the node budget must cover them. */
  method NormalizeReadInput(q: ReadRequest) returns (r: Option<ReadInput>)
    ensures r.Some? <==> RequestAcceptable(q)
    ensures r.Some? ==>
              && NoDuplicates(r.value.roots) && SortedBy(r.value.roots, SelfKey)
              && Elements(r.value.roots) == Elements(Trimmed(q.roots)) && r.value.relations == Elements(q.relations)
              && r.value.maxDepth == q.maxDepth && r.value.maxNodes == q.maxNodes && r.value.maxEdges == q.maxEdges
  {
    if |q.roots| == 0 || |q.roots| > MAX_ROOTS || q.maxDepth < 0 || q.maxDepth > MAX_DEPTH || q.maxNodes < 1
       || q.maxNodes > MAX_NODES || q.maxEdges < 0 || q.maxEdges > MAX_EDGES || (q.maxDepth > 0 && q.maxEdges == 0) {
      return None;
    }
    var roots: seq<string> := [];
    for i := 0 to |q.roots|
      invariant NoDuplicates(roots) && Elements(roots) == Elements(Trimmed(q.roots)[..i])
      invariant forall k :: 0 <= k < i ==> HasNodePrefix(TrimSpace(q.roots[k]))
    {
      var root := TrimSpace(q.roots[i]);
      assert Trimmed(q.roots)[..i + 1] == Trimmed(q.roots)[..i] + [root];
      ElementsAppend(Trimmed(q.roots)[..i], root);
      ElementsAppend(roots, root);
      assert root in roots <==> root in Elements(roots);
      if !HasNodePrefix(root) {
        return None;
      }
      if root in roots {
        continue;
      }
      roots := roots + [root];
    }
    assert Trimmed(q.roots)[..|q.roots|] == Trimmed(q.roots);
    NoDuplicatesSize(roots);
    if |roots| > q.maxNodes {
      return None;
    }
    SortedOnce(roots);
    return Some(ReadInput(SortBy(roots, SelfKey), Elements(q.relations), q.maxDepth, q.maxNodes, q.maxEdges));
  }
}
