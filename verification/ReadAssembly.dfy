/**
 The second half of a bounded read: the selected rows are put together into an artifact,
 which is refused when a derivation reaches outside the selection.
 */
module ReadAssembly {
  import opened Outcomes
  import opened Ordering
  import opened Evidence
  import opened Identity
  import opened BoundedRead

  // ----- stored rows -----

  datatype NodeRow = NodeRow(
    id: Id, kind: NodeKind, payload: Payload, provenance: Provenance, temporal: Temporal, integrity: Integrity)

  /** A derivation joined with one of its parents; the parents of `record` are not read. */
  datatype ParentRow = ParentRow(record: Derivation, parent: Id, edge: Id) {
    function Head(): Derivation {
      record.(parents := [])
    }
  }

  datatype ReadStore = ReadStore(nodes: seq<NodeRow>, edges: seq<EdgeRow>, parents: seq<ParentRow>)

  function NodeRowId(n: NodeRow): string { n.id }
  function ParentRowKey(r: ParentRow): string { PairKey(r.record.nodeId, r.parent) }
  function PayloadOf(n: NodeRow): Payload { n.payload }
  function NodeProvenance(n: NodeRow): Provenance { n.provenance }
  function EdgeProvenance(e: EdgeRow): Provenance { e.provenance }
  function TemporalOf(n: NodeRow): Temporal { n.temporal }
  function IntegrityOf(n: NodeRow): Integrity { n.integrity }

  function NodeIds(rows: seq<NodeRow>): set<Id> {
    Refs(rows, NodeRowId)
  }

  predicate IsDerived(kind: NodeKind) {
    kind == DerivedClaim || kind == Candidate
  }

  /** Primary keys. */
  ghost predicate WellKeyed(store: ReadStore) {
    DistinctKeys(store.nodes, NodeRowId) && DistinctKeys(store.edges, RowId)
  }

  // ----- sidecar records, one per id -----

  /** The first record under each id. */
  function Dedupe<T>(s: seq<T>, key: T -> string): seq<T> {
    if s == [] then []
    else
      var kept, last := Dedupe(s[..|s| - 1], key), s[|s| - 1];
      if key(last) in Refs(kept, key) then kept else kept + [last]
  }

  /** Every record once, in id order. */
  function RecordTable<T>(items: seq<T>, key: T -> string): seq<T> {
    SortBy(Dedupe(items, key), key)
  }

  ghost predicate Agree<T>(s: seq<T>, key: T -> string) {
    forall x, y :: x in s && y in s && key(x) == key(y) ==> x == y
  }

  lemma {:induction false} DedupeFacts<T>(s: seq<T>, key: T -> string)
    ensures DistinctKeys(Dedupe(s, key), key)
    ensures forall x :: x in Dedupe(s, key) ==> x in s
    ensures forall x :: x in s ==> key(x) in Refs(Dedupe(s, key), key)
    ensures Agree(s, key) ==> forall x :: x in s ==> x in Dedupe(s, key)
  {
    if s != [] {
      var front, last := s[..|s| - 1], s[|s| - 1];
      var kept := Dedupe(front, key);
      DedupeFacts(front, key);
      assert s == front + [last];
      RefsMembers(kept, key);
      RefsMembers(kept + [last], key);
      if key(last) in Refs(kept, key) {
        if Agree(s, key) {
          var x :| x in kept && key(x) == key(last);
          assert x in s && last in s;
        }
      } else {
        forall i | 0 <= i < |kept|
          ensures key(kept[i]) != key(last)
        {
          assert kept[i] in kept;
        }
        forall x | x in front
          ensures key(x) in Refs(kept + [last], key)
        {
          var y :| y in kept && key(y) == key(x);
          assert y in kept + [last];
        }
      }
    }
  }

  /** Appends a record unless its id is there already; a different record under the id is a conflict. */
  method AppendRecord<T(==)>(values: seq<T>, seen: map<string, T>, key: T -> string, x: T)
    returns (r: Option<(seq<T>, map<string, T>)>)
    requires seen == Index(values, key) && DistinctKeys(values, key)
    ensures r.Some? <==> forall y :: y in values && key(y) == key(x) ==> y == x
    ensures r.Some? ==>
              && r.value.0 == (if key(x) in Refs(values, key) then values else values + [x])
              && r.value.1 == Index(r.value.0, key) && DistinctKeys(r.value.0, key)
  {
    IndexKeys(values, key);
    RefsMembers(values, key);
    if key(x) !in seen {
      assert (values + [x])[..|values|] == values;
      forall i | 0 <= i < |values|
        ensures key(values[i]) != key(x)
      {
        assert values[i] in values;
      }
      return Some((values + [x], seen[key(x) := x]));
    }
    if seen[key(x)] != x {
      return None;
    }
    return Some((values, seen));
  }

  /** All records in order, each id once, or nothing when two records disagree. */
  method CollectRecords<T(==)>(items: seq<T>, key: T -> string) returns (r: Option<seq<T>>)
    ensures r.Some? <==> Agree(items, key)
    ensures r.Some? ==> r.value == Dedupe(items, key)
  {
    var values: seq<T> := [];
    var seen: map<string, T> := map[];
    for i := 0 to |items|
      invariant values == Dedupe(items[..i], key) && Agree(items[..i], key)
      invariant seen == Index(values, key) && DistinctKeys(values, key)
    {
      DedupeFacts(items[..i], key);
      assert items[..i + 1][..i] == items[..i];
      assert items[..i + 1] == items[..i] + [items[i]];
      var appended := AppendRecord(values, seen, key, items[i]);
      if appended.None? {
        ghost var y :| y in values && key(y) == key(items[i]) && y != items[i];
        assert y in items[..i] && y in items && items[i] in items;
        return None;
      }
      AgreeStep(items[..i], values, key, items[i]);
      values, seen := appended.value.0, appended.value.1;
    }
    assert items[..|items|] == items;
    return Some(values);
  }

  lemma AgreeStep<T>(s: seq<T>, kept: seq<T>, key: T -> string, x: T)
    requires Agree(s, key) && forall y :: y in s ==> y in kept
    requires forall y :: y in kept && key(y) == key(x) ==> y == x
    ensures Agree(s + [x], key)
  {
  }

  // ----- derivations -----

  function WhereParents(rows: seq<ParentRow>, nodes: set<Id>): (found: seq<ParentRow>)
    ensures forall r :: r in found <==> r in rows && r.record.nodeId in nodes
  {
    if rows == [] then []
    else if rows[0].record.nodeId in nodes then [rows[0]] + WhereParents(rows[1..], nodes)
    else WhereParents(rows[1..], nodes)
  }

  predicate HasEdge(edges: map<Id, EdgeRow>, r: ParentRow) {
    && r.edge in edges && edges[r.edge].from == r.parent && edges[r.edge].to == r.record.nodeId
    && edges[r.edge].relation == DerivedFrom
  }

  predicate ParentInside(selected: set<Id>, edges: map<Id, EdgeRow>, r: ParentRow) {
    r.parent in selected && HasEdge(edges, r)
  }

  /** Every parent of these derived nodes is selected and its edge recorded. */
  ghost predicate Closed(parents: seq<ParentRow>, derived: set<Id>, selected: set<Id>, edges: map<Id, EdgeRow>) {
    forall r :: r in parents && r.record.nodeId in derived ==> ParentInside(selected, edges, r)
  }

  /** The joined rows of a node repeat one derivation. */
  ghost predicate OneRecordEach(parents: seq<ParentRow>, derived: set<Id>) {
    forall r, s :: r in parents && s in parents && r.record.nodeId == s.record.nodeId && r.record.nodeId in derived ==>
      r.Head() == s.Head()
  }

  ghost predicate HasRows(parents: seq<ParentRow>, derived: set<Id>) {
    forall id :: id in derived ==> exists r :: r in parents && r.record.nodeId == id
  }

  /** The derivation of a node as its joined rows give it, parents in row order. */
  function Gathered(rows: seq<ParentRow>, id: Id): Option<Derivation> {
    if rows == [] then None
    else
      var before, last := Gathered(rows[..|rows| - 1], id), rows[|rows| - 1];
      if last.record.nodeId != id then before
      else if before.None? then Some(last.Head().(parents := [last.parent]))
      else Some(before.value.(parents := before.value.parents + [last.parent]))
  }

  lemma {:induction false} GatheredFacts(rows: seq<ParentRow>, id: Id)
    ensures Gathered(rows, id).Some? <==> exists r :: r in rows && r.record.nodeId == id
    ensures Gathered(rows, id).Some? ==>
              var d := Gathered(rows, id).value;
              && (exists r :: r in rows && r.record.nodeId == id && r.Head() == d.(parents := []))
              && d.parents != [] && d.nodeId == id
              && (forall p :: p in d.parents <==> exists r :: r in rows && r.record.nodeId == id && r.parent == p)
  {
    if rows != [] {
      var front, last := rows[..|rows| - 1], rows[|rows| - 1];
      GatheredFacts(front, id);
      assert rows == front + [last];
      assert last in rows;
    }
  }

  lemma {:induction false} GatheredDistinct(rows: seq<ParentRow>, id: Id)
    requires DistinctKeys(rows, ParentRowKey)
    ensures Gathered(rows, id).Some? ==> NoDuplicates(Gathered(rows, id).value.parents)
  {
    if rows != [] {
      var front, last := rows[..|rows| - 1], rows[|rows| - 1];
      assert DistinctKeys(front, ParentRowKey);
      GatheredDistinct(front, id);
      GatheredFacts(front, id);
      forall r | r in front
        ensures !(r.record.nodeId == last.record.nodeId && r.parent == last.parent)
      {
        var i :| 0 <= i < |front| && front[i] == r;
        assert ParentRowKey(rows[i]) != ParentRowKey(rows[|rows| - 1]);
      }
      if last.record.nodeId == id && Gathered(front, id).Some? {
        AppendDistinct(Gathered(front, id).value.parents, last.parent);
      }
    }
  }

  /** What the derivation query returns for these nodes, in its order. */
  function QueriedParents(parents: seq<ParentRow>, derived: set<Id>): seq<ParentRow> {
    SortBy(WhereParents(parents, derived), ParentRowKey)
  }

  function DerivationsOf(rows: seq<ParentRow>, ids: seq<Id>): seq<Derivation>
    requires forall i :: 0 <= i < |ids| ==> Gathered(rows, ids[i]).Some?
  {
    seq(|ids|, i requires 0 <= i < |ids| => Gathered(rows, ids[i]).value)
  }

  /** The map built so far holds each node's derivation as gathered so far. */
  ghost predicate GatheredSoFar(rows: seq<ParentRow>, byNode: map<Id, Derivation>) {
    forall id ::
      (id in byNode <==> Gathered(rows, id).Some?) && (id in byNode ==> byNode[id] == Gathered(rows, id).value)
  }

  lemma GatherStep(rows: seq<ParentRow>, r: ParentRow, byNode: map<Id, Derivation>)
    requires GatheredSoFar(rows, byNode)
    ensures var id := r.record.nodeId;
            GatheredSoFar(rows + [r], byNode[id :=
              if id in byNode then byNode[id].(parents := byNode[id].parents + [r.parent])
              else r.Head().(parents := [r.parent])])
  {
    assert (rows + [r])[..|rows|] == rows;
  }

  /** The rows read so far are inside the view and repeat one record per node. */
  ghost predicate RowsReadable(rows: seq<ParentRow>, selected: set<Id>, edges: map<Id, EdgeRow>) {
    && (forall r :: r in rows ==> ParentInside(selected, edges, r))
    && (forall r, s :: r in rows && s in rows && r.record.nodeId == s.record.nodeId ==> r.Head() == s.Head())
  }

  /** A row is readable after others exactly when it is inside and matches what its node has so far. */
  lemma ReadableStep(
    rows: seq<ParentRow>, r: ParentRow, byNode: map<Id, Derivation>, selected: set<Id>, edges: map<Id, EdgeRow>)
    requires GatheredSoFar(rows, byNode) && RowsReadable(rows, selected, edges)
    ensures RowsReadable(rows + [r], selected, edges) <==>
            ParentInside(selected, edges, r)
            && (r.record.nodeId in byNode ==> byNode[r.record.nodeId].(parents := []) == r.Head())
  {
    var id, more := r.record.nodeId, rows + [r];
    GatheredFacts(rows, id);
    assert r in more;
    if RowsReadable(more, selected, edges) && id in byNode {
      var s :| s in rows && s.record.nodeId == id && s.Head() == byNode[id].(parents := []);
      assert s in more;
    }
  }

  method GatherRows(rows: seq<ParentRow>, selected: set<Id>, edges: map<Id, EdgeRow>)
    returns (r: Option<map<Id, Derivation>>)
    ensures r.Some? <==> RowsReadable(rows, selected, edges)
    ensures r.Some? ==> GatheredSoFar(rows, r.value)
  {
    var byNode: map<Id, Derivation> := map[];
    for i := 0 to |rows|
      invariant RowsReadable(rows[..i], selected, edges) && GatheredSoFar(rows[..i], byNode)
    {
      var row := rows[i];
      var id := row.record.nodeId;
      assert rows[..i + 1] == rows[..i] + [row];
      ReadableStep(rows[..i], row, byNode, selected, edges);
      GatherStep(rows[..i], row, byNode);
      if row.parent !in selected || !HasEdge(edges, row)
         || (id in byNode && byNode[id].(parents := []) != row.Head()) {
        PrefixReadable(rows, i + 1, selected, edges);
        return None;
      }
      if id in byNode {
        byNode := byNode[id := byNode[id].(parents := byNode[id].parents + [row.parent])];
      } else {
        byNode := byNode[id := row.Head().(parents := [row.parent])];
      }
    }
    assert rows[..|rows|] == rows;
    return Some(byNode);
  }

  lemma PrefixReadable(rows: seq<ParentRow>, k: nat, selected: set<Id>, edges: map<Id, EdgeRow>)
    requires k <= |rows|
    ensures RowsReadable(rows, selected, edges) ==> RowsReadable(rows[..k], selected, edges)
  {
    assert forall r :: r in rows[..k] ==> r in rows;
  }

  lemma QueriedMembers(parents: seq<ParentRow>, derived: set<Id>)
    ensures forall r :: r in QueriedParents(parents, derived) <==> r in parents && r.record.nodeId in derived
  {
    SortFacts(WhereParents(parents, derived), ParentRowKey);
  }

  lemma GatheredRows(parents: seq<ParentRow>, derived: set<Id>, id: Id)
    requires id in derived
    ensures Gathered(QueriedParents(parents, derived), id).Some? <==> exists r :: r in parents && r.record.nodeId == id
  {
    GatheredFacts(QueriedParents(parents, derived), id);
    QueriedMembers(parents, derived);
  }

  /** All three conditions under which the derivations of the selected nodes can be read. */
  ghost predicate DerivationsReadable(
    parents: seq<ParentRow>, derived: set<Id>, selected: set<Id>, edges: map<Id, EdgeRow>) {
    Closed(parents, derived, selected, edges) && OneRecordEach(parents, derived) && HasRows(parents, derived)
  }

  /** One derivation per derived node, or nothing when one of them reaches outside the view. */
  method LoadDerivations(parents: seq<ParentRow>, derived: seq<Id>, selected: set<Id>, edges: map<Id, EdgeRow>)
    returns (r: Option<seq<Derivation>>)
    ensures r.Some? <==> DerivationsReadable(parents, Elements(derived), selected, edges)
    ensures r.Some? ==>
              && (forall i :: 0 <= i < |derived| ==>
                  Gathered(QueriedParents(parents, Elements(derived)), derived[i]).Some?)
              && r.value == DerivationsOf(QueriedParents(parents, Elements(derived)), derived)
  {
    var rows := QueriedParents(parents, Elements(derived));
    QueriedMembers(parents, Elements(derived));
    var byNode := GatherRows(rows, selected, edges);
    if byNode.None? {
      return None;
    }
    var derivations: seq<Derivation> := [];
    for i := 0 to |derived|
      invariant |derivations| == i
      invariant forall k :: 0 <= k < i ==> derived[k] in byNode.value && derivations[k] == byNode.value[derived[k]]
    {
      assert derived[i] in Elements(derived);
      GatheredRows(parents, Elements(derived), derived[i]);
      if derived[i] !in byNode.value {
        return None;
      }
      derivations := derivations + [byNode.value[derived[i]]];
    }
    forall id | id in Elements(derived)
      ensures exists r :: r in parents && r.record.nodeId == id
    {
      var k :| 0 <= k < |derived| && derived[k] == id;
      GatheredRows(parents, Elements(derived), id);
    }
    return Some(derivations);
  }

  // ----- assembly -----

  function WhereNodes(rows: seq<NodeRow>, ids: set<Id>): (found: seq<NodeRow>)
    ensures forall n :: n in found <==> n in rows && n.id in ids
  {
    if rows == [] then []
    else if rows[0].id in ids then [rows[0]] + WhereNodes(rows[1..], ids)
    else WhereNodes(rows[1..], ids)
  }

  lemma {:induction false} WhereNodesDistinct(rows: seq<NodeRow>, ids: set<Id>)
    requires DistinctKeys(rows, NodeRowId)
    ensures DistinctKeys(WhereNodes(rows, ids), NodeRowId)
  {
    if rows != [] {
      assert DistinctKeys(rows[1..], NodeRowId);
      WhereNodesDistinct(rows[1..], ids);
      forall n | n in rows[1..]
        ensures NodeRowId(n) != NodeRowId(rows[0])
      {
        var i :| 1 <= i < |rows| && rows[i] == n;
      }
    }
  }

  /** The selected node rows in id order. */
  function QueriedNodes(store: ReadStore, selected: set<Id>): seq<NodeRow> {
    SortBy(WhereNodes(store.nodes, selected), NodeRowId)
  }

  lemma QueriedNodesFacts(store: ReadStore, selected: set<Id>)
    requires DistinctKeys(store.nodes, NodeRowId)
    ensures forall n :: n in QueriedNodes(store, selected) <==> n in store.nodes && n.id in selected
    ensures DistinctKeys(QueriedNodes(store, selected), NodeRowId)
    ensures NodeIds(QueriedNodes(store, selected)) == NodeIds(store.nodes) * selected
  {
    var found := WhereNodes(store.nodes, selected);
    WhereNodesDistinct(store.nodes, selected);
    SortFacts(found, NodeRowId);
    DistinctKeysPermuted(found, QueriedNodes(store, selected), NodeRowId);
    RefsMembers(QueriedNodes(store, selected), NodeRowId);
    RefsMembers(store.nodes, NodeRowId);
  }

  function ToNode(n: NodeRow): CanonicalNode {
    CanonicalNode(n.id, n.kind, n.payload.id, n.provenance.id, n.temporal.id, n.integrity.id)
  }

  function ToEdge(e: EdgeRow): CanonicalEdge {
    CanonicalEdge(e.id, e.from, e.to, e.relation, e.provenance.id)
  }

  function DerivedNodes(rows: seq<NodeRow>): (ids: seq<Id>)
    ensures forall id :: id in ids <==> exists n :: n in rows && n.id == id && IsDerived(n.kind)
  {
    if rows == [] then []
    else
      var front, last := rows[..|rows| - 1], rows[|rows| - 1];
      assert rows == front + [last];
      if IsDerived(last.kind) then DerivedNodes(front) + [last.id] else DerivedNodes(front)
  }

  /** Every provenance record of the view, in the order it is met. */
  function AllProvenance(rows: seq<NodeRow>, links: seq<EdgeRow>): seq<Provenance> {
    Mapped(rows, NodeProvenance) + Mapped(links, EdgeProvenance)
  }

  /** Records met twice under one id are the same. */
  ghost predicate RecordsAgree(rows: seq<NodeRow>, links: seq<EdgeRow>) {
    && Agree(Mapped(rows, PayloadOf), PayloadId) && Agree(AllProvenance(rows, links), ProvenanceId)
    && Agree(Mapped(rows, TemporalOf), TemporalId) && Agree(Mapped(rows, IntegrityOf), IntegrityId)
  }

  const SNAPSHOT_PREFIX := "postgres-read-view:"

  /** Digests, of which nothing is assumed. */
  datatype ReadCodec = ReadCodec(digest: Payload -> string, snapshot: Artifact -> string)

  /** The artifact made of these rows and derivations. */
  function Put(codec: ReadCodec, rows: seq<NodeRow>, links: seq<EdgeRow>, derivations: seq<Derivation>): Artifact {
    var historical := exists i :: 0 <= i < |derivations| && derivations[i].useClass != "";
    var a := Artifact(
      if historical then HISTORICAL_SCHEMA else CANONICAL_SCHEMA, "",
      SortBy(Mapped(rows, ToNode), NodeId), SortBy(Mapped(links, ToEdge), EdgeId),
      RecordTable(Mapped(rows, PayloadOf), PayloadId),
      RecordTable(AllProvenance(rows, links), ProvenanceId),
      RecordTable(Mapped(rows, TemporalOf), TemporalId),
      RecordTable(Mapped(rows, IntegrityOf), IntegrityId),
      SortBy(derivations, DerivationId));
    a.(snapshotId := SNAPSHOT_PREFIX + codec.snapshot(a))
  }

  function DerivedIds(store: ReadStore, selected: set<Id>): set<Id> {
    Elements(DerivedNodes(QueriedNodes(store, selected)))
  }

  /** What reading the selection back requires before the artifact is validated. */
  ghost predicate Readable(store: ReadStore, selected: set<Id>, edges: map<Id, EdgeRow>, links: seq<EdgeRow>) {
    && selected <= NodeIds(store.nodes)
    && RecordsAgree(QueriedNodes(store, selected), links)
    && DerivationsReadable(store.parents, DerivedIds(store, selected), selected, edges)
  }

  lemma AllGathered(parents: seq<ParentRow>, ids: seq<Id>)
    requires HasRows(parents, Elements(ids))
    ensures forall i :: 0 <= i < |ids| ==> Gathered(QueriedParents(parents, Elements(ids)), ids[i]).Some?
  {
    forall i | 0 <= i < |ids|
      ensures Gathered(QueriedParents(parents, Elements(ids)), ids[i]).Some?
    {
      assert ids[i] in Elements(ids);
      GatheredRows(parents, Elements(ids), ids[i]);
    }
  }

  function DerivationsFor(parents: seq<ParentRow>, ids: seq<Id>): seq<Derivation>
    requires HasRows(parents, Elements(ids))
  {
    AllGathered(parents, ids);
    DerivationsOf(QueriedParents(parents, Elements(ids)), ids)
  }

  function ViewDerivations(store: ReadStore, selected: set<Id>): seq<Derivation>
    requires HasRows(store.parents, DerivedIds(store, selected))
  {
    DerivationsFor(store.parents, DerivedNodes(QueriedNodes(store, selected)))
  }

  function View(codec: ReadCodec, store: ReadStore, selected: set<Id>, links: seq<EdgeRow>): Artifact
    requires HasRows(store.parents, DerivedIds(store, selected))
  {
    Put(codec, QueriedNodes(store, selected), links, ViewDerivations(store, selected))
  }

  ghost predicate Assembles(
    codec: ReadCodec, store: ReadStore, selected: set<Id>, edges: map<Id, EdgeRow>, links: seq<EdgeRow>) {
    Readable(store, selected, edges, links) && ValidArtifact(View(codec, store, selected, links), codec.digest)
  }

  /** The recorded edges in id order; both ends of each were loaded. */
  method ListEdges(edges: map<Id, EdgeRow>, loaded: set<Id>) returns (links: seq<EdgeRow>)
    requires Filed(edges, loaded)
    ensures DistinctKeys(links, RowId) && SortedBy(links, RowId)
    ensures forall e :: e in links <==> e in Recorded(edges)
  {
    var ids := SortedIds(edges.Keys);
    links := [];
    for i := 0 to |ids|
      invariant |links| == i
      invariant forall k :: 0 <= k < i ==> ids[k] in edges && links[k] == edges[ids[k]] && links[k].id == ids[k]
    {
      assert ids[i] in Elements(ids);
      var edge := edges[ids[i]];
      assert edge.from in loaded && edge.to in loaded;
      links := links + [edge];
    }
    forall i, j | 0 <= i < j < |links|
      ensures RowId(links[i]) != RowId(links[j]) && Leq(RowId(links[i]), RowId(links[j]))
    {
      assert ids[i] != ids[j] && Leq(SelfKey(ids[i]), SelfKey(ids[j]));
    }
    forall e | e in Recorded(edges)
      ensures e in links
    {
      var id :| id in edges && edges[id] == e;
      assert id in Elements(ids);
      var k :| 0 <= k < |ids| && ids[k] == id;
      assert links[k] == e;
    }
  }

  /** The rows of the selection, their records and derivations, then the artifact's own validation. */
  method Assemble(codec: ReadCodec, store: ReadStore, selected: set<Id>, edges: map<Id, EdgeRow>, links: seq<EdgeRow>)
    returns (r: Option<Artifact>)
    requires WellKeyed(store)
    ensures r.Some? <==> Assembles(codec, store, selected, edges, links)
    ensures r.Some? ==> r.value == View(codec, store, selected, links)
  {
    var rows := QueriedNodes(store, selected);
    QueriedNodesFacts(store, selected);
    var loaded := NodeIds(rows);
    if |loaded| != |selected| {
      assert selected <= NodeIds(store.nodes) ==> loaded == selected;
      return None;
    }
    SameSizeSubset(loaded, selected);
    var payloads := CollectRecords(Mapped(rows, PayloadOf), PayloadId);
    var provenance := CollectRecords(AllProvenance(rows, links), ProvenanceId);
    var temporal := CollectRecords(Mapped(rows, TemporalOf), TemporalId);
    var integrity := CollectRecords(Mapped(rows, IntegrityOf), IntegrityId);
    if payloads.None? || provenance.None? || temporal.None? || integrity.None? {
      return None;
    }
    var derivations := LoadDerivations(store.parents, DerivedNodes(rows), selected, edges);
    if derivations.None? {
      return None;
    }
    var artifact := Put(codec, rows, links, derivations.value);
    assert artifact == View(codec, store, selected, links);
    var valid := ValidateArtifact(artifact, codec.digest);
    return if valid then Some(artifact) else None;
  }

  // ----- a sound store -----

  ghost predicate NodeSound(n: NodeRow, digest: Payload -> string) {
    && !Blank(n.id) && n.payload.Complete() && n.provenance.Complete() && n.temporal.Complete()
    && n.integrity.Complete() && n.integrity.digest == digest(n.payload)
  }

  ghost predicate EdgeSound(e: EdgeRow, ids: set<Id>) {
    !Blank(e.id) && e.provenance.Complete() && e.from in ids && e.to in ids
  }

  /** A node that needs a derivation, with the provenance its derivation names. */
  ghost predicate Backs(n: NodeRow, d: Derivation) {
    n.id == d.nodeId && IsDerived(n.kind) && n.provenance.id == d.provenanceRef
  }

  predicate Records(e: EdgeRow, r: ParentRow) {
    e.id == r.edge && e.from == r.parent && e.to == r.record.nodeId && e.relation == DerivedFrom
  }

  predicate HeadSound(d: Derivation) {
    && (d.useClass == "" || d.useClass == HISTORICAL_ONLY)
    && !Blank(d.id) && !Blank(d.nodeId) && !Blank(d.methodName) && !Blank(d.producer) && !Blank(d.traceRef)
  }

  ghost predicate ParentSound(store: ReadStore, r: ParentRow) {
    && (exists n :: n in store.nodes && Backs(n, r.record))
    && (exists e :: e in store.edges && Records(e, r))
  }

  /** Rows of one node repeat one derivation, and no two nodes share one. */
  ghost predicate OneDerivationPerNode(parents: seq<ParentRow>) {
    && DistinctKeys(parents, ParentRowKey)
    && (forall r, s :: r in parents && s in parents && r.record.nodeId == s.record.nodeId ==> r.Head() == s.Head())
    && (forall r, s :: r in parents && s in parents && r.record.id == s.record.id ==>
        r.record.nodeId == s.record.nodeId)
  }

  ghost predicate EdgeHasRow(parents: seq<ParentRow>, e: EdgeRow) {
    exists r :: r in parents && Records(e, r)
  }

  ghost predicate NodeHasRow(parents: seq<ParentRow>, n: NodeRow) {
    exists r :: r in parents && r.record.nodeId == n.id
  }

  /** Complete records that agree, edges with both ends, and derivations without blanks. */
  ghost predicate RecordsSound(store: ReadStore, digest: Payload -> string) {
    && (forall n :: n in store.nodes ==> NodeSound(n, digest))
    && (forall e :: e in store.edges ==> EdgeSound(e, NodeIds(store.nodes)))
    && RecordsAgree(store.nodes, store.edges)
    && (forall r {:trigger HeadSound(r.record)} :: r in store.parents ==> HeadSound(r.record))
  }

  /** Derivations, derived nodes and derived_from edges belong together one to one. */
  ghost predicate DerivationsMatch(store: ReadStore) {
    && OneDerivationPerNode(store.parents)
    && (forall r {:trigger ParentSound(store, r)} :: r in store.parents ==> ParentSound(store, r))
    && (forall n {:trigger NodeHasRow(store.parents, n)} ::
          n in store.nodes && IsDerived(n.kind) ==> NodeHasRow(store.parents, n))
    && (forall e {:trigger EdgeHasRow(store.parents, e)} ::
          e in store.edges && e.relation == DerivedFrom ==> EdgeHasRow(store.parents, e))
  }

  /** What the writers keep. */
  ghost predicate StoreSound(store: ReadStore, digest: Payload -> string) {
    WellKeyed(store) && RecordsSound(store, digest) && DerivationsMatch(store)
  }

  // ----- a sound selection assembles exactly when it is closed -----

  lemma RecordTableFacts<T>(items: seq<T>, key: T -> string)
    requires Agree(items, key)
    ensures DistinctKeys(RecordTable(items, key), key)
    ensures forall x :: x in RecordTable(items, key) <==> x in items
  {
    var kept := Dedupe(items, key);
    DedupeFacts(items, key);
    SortFacts(kept, key);
    DistinctKeysPermuted(kept, RecordTable(items, key), key);
  }

  lemma RecordTableHas<T>(items: seq<T>, key: T -> string, x: T)
    requires Agree(items, key)
    ensures x in RecordTable(items, key) <==> x in items
  {
    RecordTableFacts(items, key);
  }

  /** The table made of these records holds each of them under its id. */
  lemma RecordLookup<T>(items: seq<T>, key: T -> string, x: T)
    requires Agree(items, key) && x in items
    ensures key(x) in Index(RecordTable(items, key), key) && Index(RecordTable(items, key), key)[key(x)] == x
  {
    RecordTableFacts(items, key);
    IndexKeys(RecordTable(items, key), key);
  }

  lemma MappedHas<T, U>(s: seq<T>, f: T -> U, x: T)
    requires x in s
    ensures f(x) in Mapped(s, f)
  {
    var i :| 0 <= i < |s| && s[i] == x;
    assert Mapped(s, f)[i] == f(x);
  }

  lemma MappedFrom<T, U>(s: seq<T>, f: T -> U, y: U) returns (x: T)
    requires y in Mapped(s, f)
    ensures x in s && f(x) == y
  {
    var i :| 0 <= i < |s| && Mapped(s, f)[i] == y;
    x := s[i];
  }

  lemma AgreeOn<T>(s: seq<T>, t: seq<T>, key: T -> string)
    requires Agree(t, key) && forall x :: x in s ==> x in t
    ensures Agree(s, key)
  {
  }

  lemma MappedSubset<T, U>(s: seq<T>, t: seq<T>, f: T -> U)
    requires forall x :: x in s ==> x in t
    ensures forall y :: y in Mapped(s, f) ==> y in Mapped(t, f)
  {
    forall y | y in Mapped(s, f)
      ensures y in Mapped(t, f)
    {
      var x := MappedFrom(s, f, y);
      MappedHas(t, f, x);
    }
  }

  lemma SubsetAgrees(rows: seq<NodeRow>, all: seq<NodeRow>, links: seq<EdgeRow>, edges: seq<EdgeRow>)
    requires RecordsAgree(all, edges)
    requires (forall n :: n in rows ==> n in all) && (forall e :: e in links ==> e in edges)
    ensures RecordsAgree(rows, links)
  {
    MappedSubset(rows, all, PayloadOf);
    MappedSubset(rows, all, NodeProvenance);
    MappedSubset(rows, all, TemporalOf);
    MappedSubset(rows, all, IntegrityOf);
    MappedSubset(links, edges, EdgeProvenance);
    AgreeOn(Mapped(rows, PayloadOf), Mapped(all, PayloadOf), PayloadId);
    AgreeOn(AllProvenance(rows, links), AllProvenance(all, edges), ProvenanceId);
    AgreeOn(Mapped(rows, TemporalOf), Mapped(all, TemporalOf), TemporalId);
    AgreeOn(Mapped(rows, IntegrityOf), Mapped(all, IntegrityOf), IntegrityId);
  }

  lemma SortedMapped<T, U>(s: seq<T>, f: T -> U, from: T -> string, to: U -> string)
    requires DistinctKeys(s, from) && forall x :: to(f(x)) == from(x)
    ensures DistinctKeys(SortBy(Mapped(s, f), to), to)
    ensures forall y :: y in SortBy(Mapped(s, f), to) <==> y in Mapped(s, f)
  {
    var mapped := Mapped(s, f);
    forall i, j | 0 <= i < j < |mapped|
      ensures to(mapped[i]) != to(mapped[j])
    {
      assert from(s[i]) != from(s[j]);
    }
    SortFacts(mapped, to);
    DistinctKeysPermuted(mapped, SortBy(mapped, to), to);
  }

  lemma PutNodes(codec: ReadCodec, rows: seq<NodeRow>, links: seq<EdgeRow>, derivations: seq<Derivation>)
    requires DistinctKeys(rows, NodeRowId)
    ensures var a := Put(codec, rows, links, derivations);
            && DistinctKeys(a.nodes, NodeId) && (forall n :: n in a.nodes ==> n in Mapped(rows, ToNode))
            && (forall r :: r in rows ==> r.id in NodeIndex(a) && NodeIndex(a)[r.id] == ToNode(r))
  {
    var a := Put(codec, rows, links, derivations);
    SortedMapped(rows, ToNode, NodeRowId, NodeId);
    NodeLookup(a);
    forall r | r in rows
      ensures r.id in NodeIndex(a) && NodeIndex(a)[r.id] == ToNode(r)
    {
      MappedHas(rows, ToNode, r);
      assert ToNode(r) in a.nodes;
    }
  }

  lemma AllMapped<T, U>(s: seq<T>, f: T -> U, complete: U -> bool)
    requires forall x :: x in s ==> complete(f(x))
    ensures forall y :: y in Mapped(s, f) ==> complete(y)
  {
    forall y | y in Mapped(s, f)
      ensures complete(y)
    {
      var x := MappedFrom(s, f, y);
    }
  }

  /** A table of complete records. */
  lemma CompleteTable<T>(items: seq<T>, key: T -> string, complete: T -> bool)
    requires Agree(items, key) && forall x :: x in items ==> complete(x)
    ensures DistinctKeys(RecordTable(items, key), key)
    ensures forall x :: x in RecordTable(items, key) ==> complete(x)
  {
    RecordTableFacts(items, key);
    forall x | x in RecordTable(items, key)
      ensures complete(x)
    {
      RecordTableHas(items, key, x);
    }
  }

  lemma CompleteProvenance(rows: seq<NodeRow>, links: seq<EdgeRow>)
    requires Agree(AllProvenance(rows, links), ProvenanceId)
    requires (forall r :: r in rows ==> r.provenance.Complete()) && (forall e :: e in links ==> e.provenance.Complete())
    ensures DistinctKeys(RecordTable(AllProvenance(rows, links), ProvenanceId), ProvenanceId)
    ensures forall p :: p in RecordTable(AllProvenance(rows, links), ProvenanceId) ==> p.Complete()
  {
    RecordTableFacts(AllProvenance(rows, links), ProvenanceId);
    forall p | p in AllProvenance(rows, links)
      ensures p.Complete()
    {
      if p in Mapped(rows, NodeProvenance) {
        var r := MappedFrom(rows, NodeProvenance, p);
      } else {
        var e := MappedFrom(links, EdgeProvenance, p);
      }
    }
  }

  lemma PutRecords(codec: ReadCodec, rows: seq<NodeRow>, links: seq<EdgeRow>, derivations: seq<Derivation>)
    requires RecordsAgree(rows, links)
    requires forall r :: r in rows ==> NodeSound(r, codec.digest)
    requires forall e :: e in links ==> e.provenance.Complete()
    ensures RecordsValid(Put(codec, rows, links, derivations))
  {
    var a := Put(codec, rows, links, derivations);
    AllMapped(rows, PayloadOf, (p: Payload) => p.Complete());
    CompleteTable(Mapped(rows, PayloadOf), PayloadId, (p: Payload) => p.Complete());
    CompleteProvenance(rows, links);
    AllMapped(rows, TemporalOf, (t: Temporal) => t.Complete());
    CompleteTable(Mapped(rows, TemporalOf), TemporalId, (t: Temporal) => t.Complete());
    AllMapped(rows, IntegrityOf, (i: Integrity) => i.Complete());
    CompleteTable(Mapped(rows, IntegrityOf), IntegrityId, (i: Integrity) => i.Complete());
    assert a.snapshotId[0] == 'p' && a.snapshotId[0] in a.snapshotId;
  }

  lemma PutNodeValid(
    codec: ReadCodec, rows: seq<NodeRow>, links: seq<EdgeRow>, derivations: seq<Derivation>, r: NodeRow)
    requires RecordsAgree(rows, links) && r in rows && NodeSound(r, codec.digest)
    ensures var a := Put(codec, rows, links, derivations);
            NodeValid(ToNode(r), PayloadIndex(a), ProvenanceIndex(a), TemporalIndex(a), IntegrityIndex(a), codec.digest)
  {
    MappedHas(rows, PayloadOf, r);
    MappedHas(rows, NodeProvenance, r);
    MappedHas(rows, TemporalOf, r);
    MappedHas(rows, IntegrityOf, r);
    RecordLookup(Mapped(rows, PayloadOf), PayloadId, r.payload);
    RecordLookup(AllProvenance(rows, links), ProvenanceId, r.provenance);
    RecordLookup(Mapped(rows, TemporalOf), TemporalId, r.temporal);
    RecordLookup(Mapped(rows, IntegrityOf), IntegrityId, r.integrity);
  }

  lemma PutNodesValid(codec: ReadCodec, rows: seq<NodeRow>, links: seq<EdgeRow>, derivations: seq<Derivation>)
    requires DistinctKeys(rows, NodeRowId) && RecordsAgree(rows, links)
    requires forall r :: r in rows ==> NodeSound(r, codec.digest)
    ensures NodesValid(Put(codec, rows, links, derivations), codec.digest)
  {
    var a := Put(codec, rows, links, derivations);
    PutNodes(codec, rows, links, derivations);
    forall n | n in a.nodes
      ensures NodeValid(n, PayloadIndex(a), ProvenanceIndex(a), TemporalIndex(a), IntegrityIndex(a), codec.digest)
    {
      var r := MappedFrom(rows, ToNode, n);
      PutNodeValid(codec, rows, links, derivations, r);
    }
  }

  lemma PutEdges(codec: ReadCodec, rows: seq<NodeRow>, links: seq<EdgeRow>, derivations: seq<Derivation>)
    requires DistinctKeys(links, RowId)
    ensures var a := Put(codec, rows, links, derivations);
            DistinctKeys(a.edges, EdgeId) && forall e :: e in a.edges <==> e in Mapped(links, ToEdge)
  {
    SortedMapped(links, ToEdge, RowId, EdgeId);
  }

  lemma PutEdgeValid(
    codec: ReadCodec, rows: seq<NodeRow>, links: seq<EdgeRow>, derivations: seq<Derivation>, l: EdgeRow)
    requires DistinctKeys(rows, NodeRowId) && RecordsAgree(rows, links)
    requires l in links && EdgeSound(l, NodeIds(rows))
    ensures var a := Put(codec, rows, links, derivations); EdgeValid(ToEdge(l), NodeIndex(a), ProvenanceIndex(a))
  {
    PutNodes(codec, rows, links, derivations);
    var from := MappedFrom(rows, NodeRowId, l.from);
    var to := MappedFrom(rows, NodeRowId, l.to);
    MappedHas(links, EdgeProvenance, l);
    RecordLookup(AllProvenance(rows, links), ProvenanceId, l.provenance);
  }

  lemma PutEdgesValid(codec: ReadCodec, rows: seq<NodeRow>, links: seq<EdgeRow>, derivations: seq<Derivation>)
    requires DistinctKeys(rows, NodeRowId) && DistinctKeys(links, RowId) && RecordsAgree(rows, links)
    requires forall e :: e in links ==> EdgeSound(e, NodeIds(rows))
    ensures EdgesValid(Put(codec, rows, links, derivations))
  {
    var a := Put(codec, rows, links, derivations);
    PutEdges(codec, rows, links, derivations);
    forall e | e in a.edges
      ensures EdgeValid(e, NodeIndex(a), ProvenanceIndex(a))
    {
      var l := MappedFrom(links, ToEdge, e);
      PutEdgeValid(codec, rows, links, derivations, l);
    }
  }

  // ----- the derivations of a closed selection -----

  lemma {:induction false} WhereParentsDistinct(rows: seq<ParentRow>, nodes: set<Id>)
    requires DistinctKeys(rows, ParentRowKey)
    ensures DistinctKeys(WhereParents(rows, nodes), ParentRowKey)
  {
    if rows != [] {
      assert DistinctKeys(rows[1..], ParentRowKey);
      WhereParentsDistinct(rows[1..], nodes);
      forall r | r in rows[1..]
        ensures ParentRowKey(r) != ParentRowKey(rows[0])
      {
        var i :| 1 <= i < |rows| && rows[i] == r;
      }
    }
  }

  lemma {:induction false} DerivedNodesDistinct(rows: seq<NodeRow>)
    requires DistinctKeys(rows, NodeRowId)
    ensures NoDuplicates(DerivedNodes(rows))
  {
    if rows != [] {
      var front, last := rows[..|rows| - 1], rows[|rows| - 1];
      DerivedNodesDistinct(front);
      forall n | n in front
        ensures n.id != last.id
      {
        var i :| 0 <= i < |front| && front[i] == n;
        assert NodeRowId(rows[i]) != NodeRowId(rows[|rows| - 1]);
      }
      if IsDerived(last.kind) {
        AppendDistinct(DerivedNodes(front), last.id);
      }
    }
  }

  /** What the gathered derivation of one node is made of. */
  ghost predicate MadeOf(parents: seq<ParentRow>, id: Id, d: Derivation) {
    && d.nodeId == id && d.parents != [] && NoDuplicates(d.parents)
    && (exists r :: r in parents && r.record.nodeId == id && r.Head() == d.(parents := []))
    && (forall p :: p in d.parents <==> ParentOf(parents, id, p))
  }

  ghost predicate ParentOf(parents: seq<ParentRow>, id: Id, p: Id) {
    exists r :: r in parents && r.record.nodeId == id && r.parent == p
  }

  lemma GatheredMadeOf(parents: seq<ParentRow>, derived: set<Id>, id: Id)
    requires DistinctKeys(parents, ParentRowKey) && id in derived
    requires Gathered(QueriedParents(parents, derived), id).Some?
    ensures MadeOf(parents, id, Gathered(QueriedParents(parents, derived), id).value)
  {
    var rows := QueriedParents(parents, derived);
    var found := WhereParents(parents, derived);
    WhereParentsDistinct(parents, derived);
    SortFacts(found, ParentRowKey);
    DistinctKeysPermuted(found, rows, ParentRowKey);
    GatheredDistinct(rows, id);
    GatheredFacts(rows, id);
    QueriedMembers(parents, derived);
    var d := Gathered(rows, id).value;
    forall p
      ensures p in d.parents <==> ParentOf(parents, id, p)
    {
      if p in d.parents {
        var r :| r in rows && r.record.nodeId == id && r.parent == p;
        assert r in parents;
      }
      if ParentOf(parents, id, p) {
        var r :| r in parents && r.record.nodeId == id && r.parent == p;
        assert r in rows;
      }
    }
  }

  /** One derivation for each of these nodes, in their order. */
  ghost predicate DerivationFor(parents: seq<ParentRow>, ids: seq<Id>, derivations: seq<Derivation>) {
    |derivations| == |ids| && forall i :: 0 <= i < |ids| ==> MadeOf(parents, ids[i], derivations[i])
  }

  lemma DerivationsForEach(parents: seq<ParentRow>, ids: seq<Id>)
    requires DistinctKeys(parents, ParentRowKey) && HasRows(parents, Elements(ids))
    ensures DerivationFor(parents, ids, DerivationsFor(parents, ids))
  {
    AllGathered(parents, ids);
    forall i | 0 <= i < |ids|
      ensures MadeOf(parents, ids[i], DerivationsFor(parents, ids)[i])
    {
      assert ids[i] in Elements(ids);
      GatheredMadeOf(parents, Elements(ids), ids[i]);
    }
  }

  lemma DerivationsDistinct(parents: seq<ParentRow>, ids: seq<Id>, derivations: seq<Derivation>)
    requires OneDerivationPerNode(parents) && NoDuplicates(ids) && DerivationFor(parents, ids, derivations)
    ensures DistinctKeys(derivations, DerivationId) && DistinctKeys(derivations, DerivationNode)
  {
    forall i, j | 0 <= i < j < |ids|
      ensures DerivationId(derivations[i]) != DerivationId(derivations[j])
    {
      assert MadeOf(parents, ids[i], derivations[i]) && MadeOf(parents, ids[j], derivations[j]);
      var r :| r in parents && r.record.nodeId == ids[i] && r.Head() == derivations[i].(parents := []);
      var s :| s in parents && s.record.nodeId == ids[j] && s.Head() == derivations[j].(parents := []);
      assert r.Head().id == derivations[i].id && s.Head().id == derivations[j].id;
      assert r.record.nodeId != s.record.nodeId;
    }
  }

  lemma SortKeeps<T>(s: seq<T>, key: T -> string, other: T -> string)
    requires DistinctKeys(s, other)
    ensures DistinctKeys(SortBy(s, key), other)
  {
    SortFacts(s, key);
    DistinctKeysPermuted(s, SortBy(s, key), other);
  }

  /** The rows, links and derivations of a closed selection of a sound store. */
  ghost predicate ClosedRows(
    store: ReadStore, rows: seq<NodeRow>, links: seq<EdgeRow>, derivations: seq<Derivation>, digest: Payload -> string)
  {
    && StoreSound(store, digest) && DistinctKeys(rows, NodeRowId) && DistinctKeys(links, RowId)
    && (forall n :: n in rows ==> n in store.nodes) && (forall e :: e in links ==> e in store.edges)
    && (forall e :: e in links ==> e.from in NodeIds(rows) && e.to in NodeIds(rows))
    && DerivationFor(store.parents, DerivedNodes(rows), derivations)
    && (forall r :: r in store.parents && r.record.nodeId in DerivedNodes(rows) ==> RowInside(rows, links, r))
  }

  ghost predicate RowInside(rows: seq<NodeRow>, links: seq<EdgeRow>, r: ParentRow) {
    r.parent in NodeIds(rows) && exists e :: e in links && Records(e, r)
  }

  /** The node row that a derivation stands behind is the selected one. */
  lemma BackedRow(store: ReadStore, rows: seq<NodeRow>, id: Id, r: ParentRow, digest: Payload -> string)
    returns (n: NodeRow)
    requires StoreSound(store, digest) && (forall n :: n in rows ==> n in store.nodes)
    requires id in NodeIds(rows) && r in store.parents && r.record.nodeId == id
    ensures n in rows && Backs(n, r.record)
  {
    n := MappedFrom(rows, NodeRowId, id);
    assert ParentSound(store, r);
    var m :| m in store.nodes && Backs(m, r.record);
    SameNode(store, n, m);
  }

  lemma SameNode(store: ReadStore, n: NodeRow, m: NodeRow)
    requires WellKeyed(store) && n in store.nodes && m in store.nodes && n.id == m.id
    ensures n == m
  {
    var i :| 0 <= i < |store.nodes| && store.nodes[i] == n;
    var j :| 0 <= j < |store.nodes| && store.nodes[j] == m;
    assert NodeRowId(store.nodes[i]) == NodeRowId(store.nodes[j]);
  }

  lemma SameEdge(store: ReadStore, e: EdgeRow, f: EdgeRow)
    requires WellKeyed(store) && e in store.edges && f in store.edges && e.id == f.id
    ensures e == f
  {
    var i :| 0 <= i < |store.edges| && store.edges[i] == e;
    var j :| 0 <= j < |store.edges| && store.edges[j] == f;
    assert RowId(store.edges[i]) == RowId(store.edges[j]);
  }

  /** A selected derivation is well formed and its node row stands behind it. */
  lemma MadeSound(store: ReadStore, rows: seq<NodeRow>, id: Id, d: Derivation, digest: Payload -> string)
    returns (n: NodeRow)
    requires StoreSound(store, digest) && (forall n :: n in rows ==> n in store.nodes)
    requires id in NodeIds(rows) && MadeOf(store.parents, id, d)
    ensures HeadSound(d) && n in rows && Backs(n, d)
  {
    var r :| r in store.parents && r.record.nodeId == id && r.Head() == d.(parents := []);
    assert HeadSound(r.record);
    n := BackedRow(store, rows, id, r, digest);
    HeadFields(r, d);
  }

  lemma HeadFields(r: ParentRow, d: Derivation)
    requires r.Head() == d.(parents := [])
    ensures HeadSound(r.record) <==> HeadSound(d)
    ensures r.record.nodeId == d.nodeId && r.record.provenanceRef == d.provenanceRef && r.record.id == d.id
  {
    assert r.Head().useClass == d.useClass && r.Head().id == d.id && r.Head().nodeId == d.nodeId;
    assert r.Head().methodName == d.methodName && r.Head().producer == d.producer;
    assert r.Head().traceRef == d.traceRef && r.Head().provenanceRef == d.provenanceRef;
  }

  ghost predicate ParentsPresent(a: Artifact, d: Derivation) {
    forall p :: p in d.parents ==> p in NodeIndex(a) && PairKey(p, d.nodeId) in DerivedPairs(a.edges)
  }

  lemma BackedValid(
    codec: ReadCodec, rows: seq<NodeRow>, links: seq<EdgeRow>, derivations: seq<Derivation>, d: Derivation, n: NodeRow)
    requires DistinctKeys(rows, NodeRowId) && RecordsAgree(rows, links)
    requires HeadSound(d) && n in rows && Backs(n, d) && d.parents != [] && NoDuplicates(d.parents)
    requires ParentsPresent(Put(codec, rows, links, derivations), d)
    ensures var a := Put(codec, rows, links, derivations);
            DerivationValid(d, NodeIndex(a), ProvenanceIndex(a), DerivedPairs(a.edges))
  {
    PutNodes(codec, rows, links, derivations);
    MappedHas(rows, NodeProvenance, n);
    RecordLookup(AllProvenance(rows, links), ProvenanceId, n.provenance);
  }

  lemma PutDerivationValid(
    codec: ReadCodec, store: ReadStore, rows: seq<NodeRow>, links: seq<EdgeRow>, derivations: seq<Derivation>, i: nat)
    requires ClosedRows(store, rows, links, derivations, codec.digest) && RecordsAgree(rows, links)
    requires i < |derivations|
    ensures var a := Put(codec, rows, links, derivations);
            DerivationValid(derivations[i], NodeIndex(a), ProvenanceIndex(a), DerivedPairs(a.edges))
  {
    var d, id := derivations[i], DerivedNodes(rows)[i];
    assert MadeOf(store.parents, id, d) && id in DerivedNodes(rows);
    var m :| m in rows && m.id == id && IsDerived(m.kind);
    MappedHas(rows, NodeRowId, m);
    var n := MadeSound(store, rows, id, d, codec.digest);
    forall p | p in d.parents
      ensures var a := Put(codec, rows, links, derivations);
              p in NodeIndex(a) && PairKey(p, d.nodeId) in DerivedPairs(a.edges)
    {
      assert ParentOf(store.parents, id, p);
      var s :| s in store.parents && s.record.nodeId == id && s.parent == p;
      ParentPresent(codec, rows, links, derivations, s);
    }
    BackedValid(codec, rows, links, derivations, d, n);
  }

  lemma ParentPresent(
    codec: ReadCodec, rows: seq<NodeRow>, links: seq<EdgeRow>, derivations: seq<Derivation>, r: ParentRow)
    requires DistinctKeys(rows, NodeRowId) && DistinctKeys(links, RowId) && RowInside(rows, links, r)
    ensures var a := Put(codec, rows, links, derivations);
            r.parent in NodeIndex(a) && PairKey(r.parent, r.record.nodeId) in DerivedPairs(a.edges)
  {
    PutNodes(codec, rows, links, derivations);
    PutEdges(codec, rows, links, derivations);
    var n := MappedFrom(rows, NodeRowId, r.parent);
    var e :| e in links && Records(e, r);
    MappedHas(links, ToEdge, e);
    assert ToEdge(e) in Put(codec, rows, links, derivations).edges;
  }

  lemma PutDerivationsDistinct(
    codec: ReadCodec, store: ReadStore, rows: seq<NodeRow>, links: seq<EdgeRow>, derivations: seq<Derivation>)
    requires ClosedRows(store, rows, links, derivations, codec.digest)
    ensures var a := Put(codec, rows, links, derivations);
            && DistinctKeys(a.derivations, DerivationId) && DistinctKeys(a.derivations, DerivationNode)
            && forall d :: d in a.derivations <==> d in derivations
  {
    DerivedNodesDistinct(rows);
    DerivationsDistinct(store.parents, DerivedNodes(rows), derivations);
    SortKeeps(derivations, DerivationId, DerivationId);
    SortKeeps(derivations, DerivationId, DerivationNode);
    SortFacts(derivations, DerivationId);
  }

  lemma PutDerivationsValid(
    codec: ReadCodec, store: ReadStore, rows: seq<NodeRow>, links: seq<EdgeRow>, derivations: seq<Derivation>)
    requires ClosedRows(store, rows, links, derivations, codec.digest) && RecordsAgree(rows, links)
    ensures DerivationsValid(Put(codec, rows, links, derivations))
  {
    var a := Put(codec, rows, links, derivations);
    PutDerivationsDistinct(codec, store, rows, links, derivations);
    forall d | d in a.derivations
      ensures d.useClass != "" ==> a.schemaVersion == HISTORICAL_SCHEMA
      ensures DerivationValid(d, NodeIndex(a), ProvenanceIndex(a), DerivedPairs(a.edges))
    {
      var i := IndexOf(derivations, d);
      PutDerivationValid(codec, store, rows, links, derivations, i);
      HistoricalSchema(codec, rows, links, derivations, i);
    }
  }

  lemma IndexOf<T>(s: seq<T>, x: T) returns (i: nat)
    requires x in s
    ensures i < |s| && s[i] == x
  {
    i :| 0 <= i < |s| && s[i] == x;
  }

  lemma HistoricalSchema(
    codec: ReadCodec, rows: seq<NodeRow>, links: seq<EdgeRow>, derivations: seq<Derivation>, i: nat)
    requires i < |derivations|
    ensures derivations[i].useClass != "" ==> Put(codec, rows, links, derivations).schemaVersion == HISTORICAL_SCHEMA
  {
  }

  /** The table of derivations by node holds each node's own. */
  lemma PutDerivationIndex(
    codec: ReadCodec, store: ReadStore, rows: seq<NodeRow>, links: seq<EdgeRow>, derivations: seq<Derivation>, id: Id)
    requires ClosedRows(store, rows, links, derivations, codec.digest) && id in DerivedNodes(rows)
    ensures var index := DerivationIndex(Put(codec, rows, links, derivations));
            id in index && MadeOf(store.parents, id, index[id])
  {
    var a := Put(codec, rows, links, derivations);
    PutDerivationsDistinct(codec, store, rows, links, derivations);
    var d := MadeFor(store.parents, DerivedNodes(rows), derivations, id);
    DerivationLookup(a, d);
  }

  lemma MadeFor(parents: seq<ParentRow>, ids: seq<Id>, derivations: seq<Derivation>, id: Id) returns (d: Derivation)
    requires DerivationFor(parents, ids, derivations) && id in ids
    ensures d in derivations && MadeOf(parents, id, d) && d.nodeId == id
  {
    var i := IndexOf(ids, id);
    assert MadeOf(parents, ids[i], derivations[i]);
    d := derivations[i];
  }

  lemma DerivationLookup(a: Artifact, d: Derivation)
    requires DistinctKeys(a.derivations, DerivationNode) && d in a.derivations
    ensures d.nodeId in DerivationIndex(a) && DerivationIndex(a)[d.nodeId] == d
  {
    IndexKeys(a.derivations, DerivationNode);
    assert DerivationNode(d) == d.nodeId;
  }

  lemma PutDerivationsCover(
    codec: ReadCodec, store: ReadStore, rows: seq<NodeRow>, links: seq<EdgeRow>, derivations: seq<Derivation>)
    requires ClosedRows(store, rows, links, derivations, codec.digest)
    ensures DerivationsCover(Put(codec, rows, links, derivations))
  {
    var a := Put(codec, rows, links, derivations);
    PutNodes(codec, rows, links, derivations);
    PutEdges(codec, rows, links, derivations);
    forall n | n in a.nodes && (n.kind == DerivedClaim || n.kind == Candidate)
      ensures n.id in DerivationIndex(a)
    {
      var r := MappedFrom(rows, ToNode, n);
      PutDerivationIndex(codec, store, rows, links, derivations, r.id);
    }
    forall e | e in a.edges && e.relation == DerivedFrom
      ensures EdgeDeclared(e, DerivationIndex(a))
    {
      var l := MappedFrom(links, ToEdge, e);
      LinkDeclared(codec, store, rows, links, derivations, l);
    }
  }

  lemma LinkDeclared(
    codec: ReadCodec, store: ReadStore, rows: seq<NodeRow>, links: seq<EdgeRow>, derivations: seq<Derivation>,
    l: EdgeRow)
    requires ClosedRows(store, rows, links, derivations, codec.digest) && l in links && l.relation == DerivedFrom
    ensures EdgeDeclared(ToEdge(l), DerivationIndex(Put(codec, rows, links, derivations)))
  {
    assert EdgeHasRow(store.parents, l);
    var r :| r in store.parents && Records(l, r);
    var n := BackedRow(store, rows, l.to, r, codec.digest);
    assert l.to in DerivedNodes(rows);
    PutDerivationIndex(codec, store, rows, links, derivations, l.to);
    assert ParentOf(store.parents, l.to, l.from);
  }

  /** A filed selection of stored nodes and edges, and its edges listed. */
  ghost predicate SelectionOf(store: ReadStore, selected: set<Id>, edges: map<Id, EdgeRow>, links: seq<EdgeRow>) {
    && selected <= NodeIds(store.nodes) && Filed(edges, selected) && Recorded(edges) <= Elements(store.edges)
    && DistinctKeys(links, RowId) && forall e :: e in links <==> e in Recorded(edges)
  }

  lemma SelectedRows(store: ReadStore, selected: set<Id>, edges: map<Id, EdgeRow>, links: seq<EdgeRow>)
    requires WellKeyed(store) && SelectionOf(store, selected, edges, links)
    ensures var rows := QueriedNodes(store, selected);
            && DistinctKeys(rows, NodeRowId) && NodeIds(rows) == selected
            && (forall n :: n in rows <==> n in store.nodes && n.id in selected)
            && (forall e :: e in links ==> e in store.edges && e.from in selected && e.to in selected)
  {
    QueriedNodesFacts(store, selected);
    assert NodeIds(QueriedNodes(store, selected)) == selected;
    forall e | e in links
      ensures e in store.edges && e.from in selected && e.to in selected
    {
      var id :| id in edges && edges[id] == e;
      assert e in Elements(store.edges);
    }
  }

  lemma DerivedHaveRows(store: ReadStore, selected: set<Id>, digest: Payload -> string)
    requires StoreSound(store, digest)
    ensures HasRows(store.parents, DerivedIds(store, selected))
  {
    QueriedNodesFacts(store, selected);
    forall id | id in DerivedIds(store, selected)
      ensures exists r :: r in store.parents && r.record.nodeId == id
    {
      var n :| n in QueriedNodes(store, selected) && n.id == id && IsDerived(n.kind);
      assert NodeHasRow(store.parents, n);
    }
  }

  lemma ClosedInside(store: ReadStore, selected: set<Id>, edges: map<Id, EdgeRow>, links: seq<EdgeRow>)
    requires WellKeyed(store) && SelectionOf(store, selected, edges, links)
    requires Closed(store.parents, DerivedIds(store, selected), selected, edges)
    ensures var rows := QueriedNodes(store, selected);
            forall r :: r in store.parents && r.record.nodeId in DerivedNodes(rows) ==> RowInside(rows, links, r)
  {
    var rows := QueriedNodes(store, selected);
    SelectedRows(store, selected, edges, links);
    forall r | r in store.parents && r.record.nodeId in DerivedNodes(rows)
      ensures RowInside(rows, links, r)
    {
      assert ParentInside(selected, edges, r);
      assert edges[r.edge] in Recorded(edges) && Records(edges[r.edge], r);
    }
  }

  /** The artifact of a closed selection is valid. */
  lemma ClosedValid(codec: ReadCodec, store: ReadStore, selected: set<Id>, edges: map<Id, EdgeRow>, links: seq<EdgeRow>)
    requires StoreSound(store, codec.digest) && SelectionOf(store, selected, edges, links)
    requires Closed(store.parents, DerivedIds(store, selected), selected, edges)
    requires HasRows(store.parents, DerivedIds(store, selected))
    ensures ValidArtifact(View(codec, store, selected, links), codec.digest)
    ensures RecordsAgree(QueriedNodes(store, selected), links)
  {
    var rows, derivations := QueriedNodes(store, selected), ViewDerivations(store, selected);
    SelectedRows(store, selected, edges, links);
    SubsetAgrees(rows, store.nodes, links, store.edges);
    DerivationsForEach(store.parents, DerivedNodes(rows));
    ClosedInside(store, selected, edges, links);
    assert ClosedRows(store, rows, links, derivations, codec.digest);
    PutRecords(codec, rows, links, derivations);
    PutNodesValid(codec, rows, links, derivations);
    PutEdgesValid(codec, rows, links, derivations);
    PutDerivationsValid(codec, store, rows, links, derivations);
    PutDerivationsCover(codec, store, rows, links, derivations);
  }

  /** In a sound store the selection is put together exactly when no derivation reaches outside it. */
  lemma AssemblesExactly(
    codec: ReadCodec, store: ReadStore, selected: set<Id>, edges: map<Id, EdgeRow>, links: seq<EdgeRow>)
    requires StoreSound(store, codec.digest) && SelectionOf(store, selected, edges, links)
    ensures Assembles(codec, store, selected, edges, links) <==>
            Closed(store.parents, DerivedIds(store, selected), selected, edges)
  {
    DerivedHaveRows(store, selected, codec.digest);
    if Closed(store.parents, DerivedIds(store, selected), selected, edges) {
      ClosedValid(codec, store, selected, edges, links);
    }
  }

  // ----- the same condition on the stored edges -----

  predicate DerivedInto(e: EdgeRow, nodes: set<Id>) {
    e.relation == DerivedFrom && e.to in nodes
  }

  lemma DerivedMember(store: ReadStore, selected: set<Id>, n: NodeRow)
    requires WellKeyed(store)
    ensures n.id in DerivedIds(store, selected) && n in store.nodes <==>
            n in store.nodes && IsDerived(n.kind) && n.id in selected
  {
    QueriedNodesFacts(store, selected);
    if n in store.nodes && n.id in DerivedIds(store, selected) {
      var m :| m in QueriedNodes(store, selected) && m.id == n.id && IsDerived(m.kind);
      SameNode(store, n, m);
    }
  }

  /** Closed means that every stored derived_from edge into the selection was recorded. */
  lemma ClosedByEdges(store: ReadStore, selected: set<Id>, edges: map<Id, EdgeRow>, digest: Payload -> string)
    requires StoreSound(store, digest) && Filed(edges, selected) && Recorded(edges) <= Elements(store.edges)
    ensures Closed(store.parents, DerivedIds(store, selected), selected, edges) <==>
            forall e :: e in store.edges && DerivedInto(e, selected) ==> e in Recorded(edges)
  {
    if Closed(store.parents, DerivedIds(store, selected), selected, edges) {
      forall e | e in store.edges && DerivedInto(e, selected)
        ensures e in Recorded(edges)
      {
        ClosedRecords(store, selected, edges, digest, e);
      }
    }
    if forall e :: e in store.edges && DerivedInto(e, selected) ==> e in Recorded(edges) {
      forall r | r in store.parents && r.record.nodeId in DerivedIds(store, selected)
        ensures ParentInside(selected, edges, r)
      {
        RecordedInside(store, selected, edges, digest, r);
      }
    }
  }

  lemma ClosedRecords(
    store: ReadStore, selected: set<Id>, edges: map<Id, EdgeRow>, digest: Payload -> string, e: EdgeRow)
    requires StoreSound(store, digest) && Filed(edges, selected) && Recorded(edges) <= Elements(store.edges)
    requires Closed(store.parents, DerivedIds(store, selected), selected, edges)
    requires e in store.edges && DerivedInto(e, selected)
    ensures e in Recorded(edges)
  {
    assert EdgeHasRow(store.parents, e);
    var r :| r in store.parents && Records(e, r);
    var n := DerivedEnd(store, e, digest);
    DerivedMember(store, selected, n);
    assert ParentInside(selected, edges, r);
    assert edges[r.edge] in Recorded(edges);
    SameEdge(store, e, edges[r.edge]);
  }

  lemma RecordedInside(
    store: ReadStore, selected: set<Id>, edges: map<Id, EdgeRow>, digest: Payload -> string, r: ParentRow)
    requires StoreSound(store, digest) && Filed(edges, selected)
    requires forall e :: e in store.edges && DerivedInto(e, selected) ==> e in Recorded(edges)
    requires r in store.parents && r.record.nodeId in DerivedIds(store, selected)
    ensures ParentInside(selected, edges, r)
  {
    assert r.record.nodeId in selected by {
      QueriedNodesFacts(store, selected);
      var n :| n in QueriedNodes(store, selected) && n.id == r.record.nodeId && IsDerived(n.kind);
    }
    assert ParentSound(store, r);
    var e :| e in store.edges && Records(e, r);
    assert DerivedInto(e, selected);
    var id :| id in edges && edges[id] == e;
  }

  /** No derived node within reach, or derived_from edges are followed and those into the ball leave its interior. */
  ghost predicate ReachKeepsParents(store: ReadStore, relations: set<Relation>, roots: set<Id>, depth: nat) {
    var es := AllowedEdges(store.edges, relations);
    || (forall n :: n in store.nodes && n.id in Ball(es, roots, depth) ==> !IsDerived(n.kind))
    || (&& (relations == {} || DerivedFrom in relations)
        && forall e :: e in store.edges && DerivedInto(e, Ball(es, roots, depth)) ==>
           e.Touches(Interior(es, roots, depth)))
  }

  /** The node a derived_from edge leads to. */
  lemma DerivedEnd(store: ReadStore, e: EdgeRow, digest: Payload -> string) returns (n: NodeRow)
    requires StoreSound(store, digest) && e in store.edges && e.relation == DerivedFrom
    ensures n in store.nodes && n.id == e.to && IsDerived(n.kind)
  {
    assert EdgeHasRow(store.parents, e);
    var r :| r in store.parents && Records(e, r);
    assert ParentSound(store, r);
    n :| n in store.nodes && Backs(n, r.record);
  }

  lemma IncomingEdge(store: ReadStore, n: NodeRow, digest: Payload -> string) returns (e: EdgeRow)
    requires StoreSound(store, digest) && n in store.nodes && IsDerived(n.kind)
    ensures e in store.edges && DerivedInto(e, {n.id})
  {
    assert NodeHasRow(store.parents, n);
    var r :| r in store.parents && r.record.nodeId == n.id;
    assert ParentSound(store, r);
    e :| e in store.edges && Records(e, r);
  }

  /** Every stored derived_from edge into the ball is one of its edges. */
  ghost predicate ParentsInBall(store: ReadStore, relations: set<Relation>, roots: set<Id>, depth: nat) {
    var es := AllowedEdges(store.edges, relations);
    forall e :: e in store.edges && DerivedInto(e, Ball(es, roots, depth)) ==> e in BallEdges(es, roots, depth)
  }

  lemma ReachByEdges(store: ReadStore, relations: set<Relation>, roots: set<Id>, depth: nat, digest: Payload -> string)
    requires StoreSound(store, digest)
    ensures ParentsInBall(store, relations, roots, depth) <==> ReachKeepsParents(store, relations, roots, depth)
  {
    var es := AllowedEdges(store.edges, relations);
    var ball := Ball(es, roots, depth);
    if ParentsInBall(store, relations, roots, depth) {
      if n :| n in store.nodes && n.id in ball && IsDerived(n.kind) {
        var e := IncomingEdge(store, n, digest);
        assert DerivedInto(e, ball);
      }
    } else {
      var e :| e in store.edges && DerivedInto(e, ball) && e !in BallEdges(es, roots, depth);
      var n := DerivedEnd(store, e, digest);
    }
  }

  /** For a whole neighbourhood the condition can be read off the store before the call. */
  lemma ClosedBeforehand(
    store: ReadStore, relations: set<Relation>, roots: set<Id>, depth: nat, selected: set<Id>, edges: map<Id, EdgeRow>,
    digest: Payload -> string)
    requires StoreSound(store, digest) && Filed(edges, selected)
    requires Complete(AllowedEdges(store.edges, relations), roots, depth, selected, edges)
    ensures Closed(store.parents, DerivedIds(store, selected), selected, edges) <==>
            ReachKeepsParents(store, relations, roots, depth)
  {
    ClosedByEdges(store, selected, edges, digest);
    ReachByEdges(store, relations, roots, depth, digest);
  }

  // ----- the read as a caller sees it -----

  /** What the search found, whether or not a view could be made of it. */
  datatype Selection = Selection(nodes: set<Id>, edges: map<Id, EdgeRow>, truncated: bool)

  datatype ReadView = ReadView(artifact: Artifact, truncated: bool)

  /** The neighbourhood of the roots is within both budgets. */
  ghost predicate Fits(store: ReadStore, q: ReadRequest)
    requires RequestAcceptable(q)
  {
    var es, roots := AllowedEdges(store.edges, Elements(q.relations)), Elements(Trimmed(q.roots));
    |Ball(es, roots, q.maxDepth)| <= q.maxNodes && |BallEdges(es, roots, q.maxDepth)| <= q.maxEdges
  }

  /** The search's account for this request: exact flag, budgets, and nothing outside the neighbourhood. */
  ghost predicate Selected(store: ReadStore, q: ReadRequest, found: Selection)
    requires RequestAcceptable(q)
  {
    var es, roots := AllowedEdges(store.edges, Elements(q.relations)), Elements(Trimmed(q.roots));
    && (found.truncated <==> !Complete(es, roots, q.maxDepth, found.nodes, found.edges))
    && (found.truncated <==> !Fits(store, q))
    && roots <= found.nodes <= Ball(Recorded(found.edges), roots, q.maxDepth)
    && Recorded(found.edges) <= BallEdges(es, roots, q.maxDepth) && Filed(found.edges, found.nodes)
    && |found.nodes| <= q.maxNodes && |found.edges| <= q.maxEdges
  }

  /** Every derivation of the selection has its parents and their edges in it. */
  ghost predicate SelectionClosed(store: ReadStore, found: Selection) {
    Closed(store.parents, DerivedIds(store, found.nodes), found.nodes, found.edges)
  }

  /** The recorded edges in id order. */
  ghost predicate Lists(links: seq<EdgeRow>, edges: map<Id, EdgeRow>) {
    DistinctKeys(links, RowId) && SortedBy(links, RowId) && forall e :: e in links <==> e in Recorded(edges)
  }

  lemma {:induction false} BallOfEnds(es: set<EdgeRow>, roots: set<Id>, k: nat)
    ensures Ball(es, roots, k) <= roots + Ends(es)
  {
    if k > 0 {
      BallOfEnds(es, roots, k - 1);
      EndsGrow(es, es, Ball(es, roots, k - 1), Ends(es) + roots);
      assert Touching(es, Ball(es, roots, k - 1)) <= es;
    }
  }

  /** Nodes linked to roots by stored edges exist when the roots do. */
  lemma LinkedExists(
    store: ReadStore, rec: set<EdgeRow>, roots: set<Id>, depth: nat, nodes: set<Id>, digest: Payload -> string)
    requires StoreSound(store, digest) && rec <= Elements(store.edges)
    requires roots <= nodes <= Ball(rec, roots, depth)
    ensures nodes <= NodeIds(store.nodes) <==> roots <= NodeIds(store.nodes)
  {
    BallOfEnds(rec, roots, depth);
    forall e | e in rec
      ensures e.from in NodeIds(store.nodes) && e.to in NodeIds(store.nodes)
    {
      assert EdgeSound(e, NodeIds(store.nodes));
    }
    assert Ends(rec) <= NodeIds(store.nodes);
  }

  lemma BallEdgesStored(store: ReadStore, relations: set<Relation>, roots: set<Id>, depth: nat)
    ensures BallEdges(AllowedEdges(store.edges, relations), roots, depth) <= Elements(store.edges)
  {
  }

  /** Roots that exist select nodes that exist. */
  lemma SelectionExists(store: ReadStore, q: ReadRequest, found: Selection, digest: Payload -> string)
    requires StoreSound(store, digest) && RequestAcceptable(q) && Selected(store, q, found)
    ensures Recorded(found.edges) <= Elements(store.edges)
    ensures found.nodes <= NodeIds(store.nodes) <==> Elements(Trimmed(q.roots)) <= NodeIds(store.nodes)
  {
    var roots := Elements(Trimmed(q.roots));
    BallEdgesStored(store, Elements(q.relations), roots, q.maxDepth);
    LinkedExists(store, Recorded(found.edges), roots, q.maxDepth, found.nodes, digest);
  }

  lemma ReadOfSoundStore(codec: ReadCodec, store: ReadStore, q: ReadRequest, found: Selection, links: seq<EdgeRow>)
    requires StoreSound(store, codec.digest) && RequestAcceptable(q) && Selected(store, q, found)
             && Lists(links, found.edges)
    ensures Assembles(codec, store, found.nodes, found.edges, links) <==>
            Elements(Trimmed(q.roots)) <= NodeIds(store.nodes) && SelectionClosed(store, found)
  {
    SelectionExists(store, q, found, codec.digest);
    if found.nodes <= NodeIds(store.nodes) {
      AssemblesExactly(codec, store, found.nodes, found.edges, links);
    }
  }

  /**
   Refused, or the artifact of the neighbourhood of the trimmed roots with an exact flag. In a
   sound store it is refused exactly when the request is, a root is missing, or a derivation
   reaches outside the selection; for a neighbourhood that fits the budgets this can be told
   beforehand.
   */
  method ReadCanonicalGraph(codec: ReadCodec, store: ReadStore, q: ReadRequest)
    returns (r: Option<ReadView>, ghost found: Selection, ghost links: seq<EdgeRow>)
    requires WellKeyed(store)
    ensures RequestAcceptable(q) ==> Selected(store, q, found) && Lists(links, found.edges)
    ensures r.Some? <==> RequestAcceptable(q) && Assembles(codec, store, found.nodes, found.edges, links)
    ensures r.Some? ==> r.value == ReadView(View(codec, store, found.nodes, links), found.truncated)
    ensures StoreSound(store, codec.digest) ==>
              (r.Some? <==> && RequestAcceptable(q) && Elements(Trimmed(q.roots)) <= NodeIds(store.nodes)
                            && SelectionClosed(store, found))
    ensures StoreSound(store, codec.digest) && RequestAcceptable(q) && Fits(store, q) ==>
              (r.Some? <==> KnownToSucceed(store, q)) && (r.Some? ==> !r.value.truncated)
  {
    found, links := Selection({}, map[], false), [];
    var input := NormalizeReadInput(q);
    if input.None? {
      return None, found, links;
    }
    NoDuplicatesSize(input.value.roots);
    var selected, edges, truncated := LoadNeighbourhood(store.edges, input.value);
    found := Selection(selected, edges, truncated);
    var listed := ListEdges(edges, selected);
    links := listed;
    if StoreSound(store, codec.digest) {
      ReadOfSoundStore(codec, store, q, found, links);
      if Fits(store, q) {
        UntruncatedReadSucceeds(store, q, found, codec.digest);
      }
    }
    var artifact := Assemble(codec, store, selected, edges, listed);
    r := if artifact.Some? then Some(ReadView(artifact.value, truncated)) else None;
  }

  /** What decides a read whose neighbourhood fits, all of it known before the call. */
  ghost predicate KnownToSucceed(store: ReadStore, q: ReadRequest) {
    && RequestAcceptable(q) && Elements(Trimmed(q.roots)) <= NodeIds(store.nodes)
    && ReachKeepsParents(store, Elements(q.relations), Elements(Trimmed(q.roots)), q.maxDepth)
  }

  /** A neighbourhood that fits is read whole, and the read succeeds or fails by what the store holds within reach. */
  lemma UntruncatedReadSucceeds(store: ReadStore, q: ReadRequest, found: Selection, digest: Payload -> string)
    requires StoreSound(store, digest) && RequestAcceptable(q) && Selected(store, q, found) && Fits(store, q)
    ensures !found.truncated
    ensures SelectionClosed(store, found) <==>
            ReachKeepsParents(store, Elements(q.relations), Elements(Trimmed(q.roots)), q.maxDepth)
  {
    ClosedBeforehand(store, Elements(q.relations), Elements(Trimmed(q.roots)), q.maxDepth, found.nodes, found.edges,
                     digest);
  }

  /** A derived node as root at depth zero is always refused. */
  lemma DerivedRootAtDepthZero(
    store: ReadStore, q: ReadRequest, found: Selection, root: NodeRow, digest: Payload -> string)
    requires StoreSound(store, digest) && RequestAcceptable(q) && Selected(store, q, found) && q.maxDepth == 0
    requires root in store.nodes && IsDerived(root.kind) && root.id in Elements(Trimmed(q.roots))
    ensures !SelectionClosed(store, found)
  {
    var e := IncomingEdge(store, root, digest);
    SelectionExists(store, q, found, digest);
    ClosedByEdges(store, found.nodes, found.edges, digest);
    assert DerivedInto(e, found.nodes) && e !in Recorded(found.edges);
  }

  /** Leaving derived_from out of the relations refuses every selection that holds a derived node. */
  lemma DerivedNodeWithoutItsRelation(
    store: ReadStore, q: ReadRequest, found: Selection, n: NodeRow, digest: Payload -> string)
    requires StoreSound(store, digest) && RequestAcceptable(q) && Selected(store, q, found)
    requires q.relations != [] && DerivedFrom !in q.relations
    requires n in store.nodes && IsDerived(n.kind) && n.id in found.nodes
    ensures !SelectionClosed(store, found)
  {
    var e := IncomingEdge(store, n, digest);
    SelectionExists(store, q, found, digest);
    ClosedByEdges(store, found.nodes, found.edges, digest);
    assert q.relations[0] in Elements(q.relations) && DerivedFrom !in Elements(q.relations);
    assert DerivedInto(e, found.nodes) && e !in Recorded(found.edges);
  }
}
