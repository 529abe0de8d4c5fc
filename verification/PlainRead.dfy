/**
 What a bounded read returns, record by record from the stored rows: nothing is turned
 round, left out or made up.
 */
module PlainRead {
  import opened Outcomes
  import opened Ordering
  import opened Evidence
  import opened BoundedRead
  import opened ReadAssembly

  // ----- the rows behind each record -----

  ghost predicate NodeShown(store: ReadStore, selected: set<Id>, n: CanonicalNode) {
    exists r :: r in store.nodes && r.id in selected && n.id == r.id && n.kind == r.kind && n.payloadRef == r.payload.id
                && n.provenanceRef == r.provenance.id && n.temporalRef == r.temporal.id
                && n.integrityRef == r.integrity.id
  }

  /** The recorded row with the same ends in the same direction. */
  ghost predicate EdgeShown(edges: map<Id, EdgeRow>, e: CanonicalEdge) {
    exists id :: id in edges && edges[id].id == e.id && edges[id].from == e.from && edges[id].to == e.to
                 && edges[id].relation == e.relation && edges[id].provenance.id == e.provenanceRef
  }

  ghost predicate OfNode(store: ReadStore, selected: set<Id>, p: Provenance) {
    exists r :: r in store.nodes && r.id in selected && r.provenance == p
  }

  ghost predicate OfEdge(edges: map<Id, EdgeRow>, p: Provenance) {
    exists id :: id in edges && edges[id].provenance == p
  }

  ghost predicate PayloadShown(store: ReadStore, selected: set<Id>, p: Payload) {
    exists r :: r in store.nodes && r.id in selected && r.payload == p
  }

  ghost predicate TemporalShown(store: ReadStore, selected: set<Id>, t: Temporal) {
    exists r :: r in store.nodes && r.id in selected && r.temporal == t
  }

  ghost predicate IntegrityShown(store: ReadStore, selected: set<Id>, i: Integrity) {
    exists r :: r in store.nodes && r.id in selected && r.integrity == i
  }

  ghost predicate SelectedDerived(store: ReadStore, selected: set<Id>, id: Id) {
    exists r :: r in store.nodes && r.id in selected && r.id == id && (r.kind == DerivedClaim || r.kind == Candidate)
  }

  ghost predicate ParentStored(store: ReadStore, node: Id, parent: Id) {
    exists r :: r in store.parents && r.record.nodeId == node && r.parent == parent
  }

  /** The stored derivation of its node over all of its stored parents, in order. */
  ghost predicate DerivationShown(store: ReadStore, d: Derivation) {
    && (exists r :: r in store.parents && r.record.nodeId == d.nodeId && r.record.id == d.id
                    && r.record.useClass == d.useClass && r.record.methodName == d.methodName
                    && r.record.producer == d.producer && r.record.traceRef == d.traceRef
                    && r.record.provenanceRef == d.provenanceRef)
    && (forall x :: x in d.parents <==> ParentStored(store, d.nodeId, x))
    && (forall i, j :: 0 <= i < j < |d.parents| ==> d.parents[i] != d.parents[j] && Leq(d.parents[i], d.parents[j]))
  }

  ghost predicate Ascending(a: Artifact) {
    && (forall i, j :: 0 <= i < j < |a.nodes| ==> Less(a.nodes[i].id, a.nodes[j].id))
    && (forall i, j :: 0 <= i < j < |a.edges| ==> Less(a.edges[i].id, a.edges[j].id))
    && (forall i, j :: 0 <= i < j < |a.payloads| ==> Less(a.payloads[i].id, a.payloads[j].id))
    && (forall i, j :: 0 <= i < j < |a.provenance| ==> Less(a.provenance[i].id, a.provenance[j].id))
    && (forall i, j :: 0 <= i < j < |a.temporal| ==> Less(a.temporal[i].id, a.temporal[j].id))
    && (forall i, j :: 0 <= i < j < |a.integrity| ==> Less(a.integrity[i].id, a.integrity[j].id))
    && (forall i, j :: 0 <= i < j < |a.derivations| ==> Less(a.derivations[i].id, a.derivations[j].id))
  }

  ghost predicate RowsShown(store: ReadStore, selected: set<Id>, edges: map<Id, EdgeRow>, a: Artifact) {
    && (forall n :: n in a.nodes <==> NodeShown(store, selected, n))
    && (forall e :: e in a.edges <==> EdgeShown(edges, e))
  }

  ghost predicate SidecarsShown(store: ReadStore, selected: set<Id>, edges: map<Id, EdgeRow>, a: Artifact) {
    && (forall p :: p in a.payloads <==> PayloadShown(store, selected, p))
    && (forall p :: p in a.provenance <==> OfNode(store, selected, p) || OfEdge(edges, p))
    && (forall t :: t in a.temporal <==> TemporalShown(store, selected, t))
    && (forall i :: i in a.integrity <==> IntegrityShown(store, selected, i))
  }

  ghost predicate DerivationsShown(store: ReadStore, selected: set<Id>, a: Artifact) {
    && (forall d :: d in a.derivations ==> SelectedDerived(store, selected, d.nodeId) && DerivationShown(store, d))
    && (forall id :: SelectedDerived(store, selected, id) ==> exists d :: d in a.derivations && d.nodeId == id)
  }

  ghost predicate HeadShown(codec: ReadCodec, a: Artifact) {
    && a.schemaVersion == (if exists d :: d in a.derivations && d.useClass != "" then "canonical-evidence-graph/v2"
                           else "canonical-evidence-graph/v1")
    && a.snapshotId == "postgres-read-view:" + codec.snapshot(a.(snapshotId := ""))
  }

  /** The artifact shows the selected rows and recorded edges, each in full, and nothing else. */
  ghost predicate Shown(
    codec: ReadCodec, store: ReadStore, selected: set<Id>, edges: map<Id, EdgeRow>, a: Artifact)
  {
    && RowsShown(store, selected, edges, a) && SidecarsShown(store, selected, edges, a)
    && DerivationsShown(store, selected, a) && HeadShown(codec, a) && Ascending(a)
  }

  // ----- nodes and edges -----

  lemma NodesShownExactly(store: ReadStore, selected: set<Id>, n: CanonicalNode)
    requires WellKeyed(store)
    ensures n in SortBy(Mapped(QueriedNodes(store, selected), ToNode), NodeId) <==> NodeShown(store, selected, n)
  {
    var rows := QueriedNodes(store, selected);
    QueriedNodesFacts(store, selected);
    SortFacts(Mapped(rows, ToNode), NodeId);
    if n in Mapped(rows, ToNode) {
      var r := MappedFrom(rows, ToNode, n);
    }
    if NodeShown(store, selected, n) {
      var r :| r in store.nodes && r.id in selected && n.id == r.id && n.kind == r.kind && n.payloadRef == r.payload.id
               && n.provenanceRef == r.provenance.id && n.temporalRef == r.temporal.id
               && n.integrityRef == r.integrity.id;
      assert ToNode(r) == n;
      MappedHas(rows, ToNode, r);
    }
  }

  lemma EdgesShownExactly(edges: map<Id, EdgeRow>, links: seq<EdgeRow>, e: CanonicalEdge)
    requires Lists(links, edges)
    ensures e in SortBy(Mapped(links, ToEdge), EdgeId) <==> EdgeShown(edges, e)
  {
    SortFacts(Mapped(links, ToEdge), EdgeId);
    if e in Mapped(links, ToEdge) {
      var l := MappedFrom(links, ToEdge, e);
      assert l in Recorded(edges);
    }
    if EdgeShown(edges, e) {
      var id :| id in edges && edges[id].id == e.id && edges[id].from == e.from && edges[id].to == e.to
                && edges[id].relation == e.relation && edges[id].provenance.id == e.provenanceRef;
      assert edges[id] in Recorded(edges) && ToEdge(edges[id]) == e;
      MappedHas(links, ToEdge, edges[id]);
    }
  }

  // ----- sidecar records -----

  lemma PayloadsShownExactly(store: ReadStore, selected: set<Id>, p: Payload)
    requires WellKeyed(store) && Agree(Mapped(QueriedNodes(store, selected), PayloadOf), PayloadId)
    ensures p in RecordTable(Mapped(QueriedNodes(store, selected), PayloadOf), PayloadId) <==>
            PayloadShown(store, selected, p)
  {
    var rows := QueriedNodes(store, selected);
    QueriedNodesFacts(store, selected);
    RecordTableHas(Mapped(rows, PayloadOf), PayloadId, p);
    if p in Mapped(rows, PayloadOf) {
      var r := MappedFrom(rows, PayloadOf, p);
    }
    if PayloadShown(store, selected, p) {
      var r :| r in store.nodes && r.id in selected && r.payload == p;
      MappedHas(rows, PayloadOf, r);
    }
  }

  lemma TemporalShownExactly(store: ReadStore, selected: set<Id>, t: Temporal)
    requires WellKeyed(store) && Agree(Mapped(QueriedNodes(store, selected), TemporalOf), TemporalId)
    ensures t in RecordTable(Mapped(QueriedNodes(store, selected), TemporalOf), TemporalId) <==>
            TemporalShown(store, selected, t)
  {
    var rows := QueriedNodes(store, selected);
    QueriedNodesFacts(store, selected);
    RecordTableHas(Mapped(rows, TemporalOf), TemporalId, t);
    if t in Mapped(rows, TemporalOf) {
      var r := MappedFrom(rows, TemporalOf, t);
    }
    if TemporalShown(store, selected, t) {
      var r :| r in store.nodes && r.id in selected && r.temporal == t;
      MappedHas(rows, TemporalOf, r);
    }
  }

  lemma IntegrityShownExactly(store: ReadStore, selected: set<Id>, i: Integrity)
    requires WellKeyed(store) && Agree(Mapped(QueriedNodes(store, selected), IntegrityOf), IntegrityId)
    ensures i in RecordTable(Mapped(QueriedNodes(store, selected), IntegrityOf), IntegrityId) <==>
            IntegrityShown(store, selected, i)
  {
    var rows := QueriedNodes(store, selected);
    QueriedNodesFacts(store, selected);
    RecordTableHas(Mapped(rows, IntegrityOf), IntegrityId, i);
    if i in Mapped(rows, IntegrityOf) {
      var r := MappedFrom(rows, IntegrityOf, i);
    }
    if IntegrityShown(store, selected, i) {
      var r :| r in store.nodes && r.id in selected && r.integrity == i;
      MappedHas(rows, IntegrityOf, r);
    }
  }

  lemma ProvenanceShownExactly(
    store: ReadStore, selected: set<Id>, edges: map<Id, EdgeRow>, links: seq<EdgeRow>, p: Provenance)
    requires WellKeyed(store) && Lists(links, edges)
    requires Agree(AllProvenance(QueriedNodes(store, selected), links), ProvenanceId)
    ensures p in RecordTable(AllProvenance(QueriedNodes(store, selected), links), ProvenanceId) <==>
            OfNode(store, selected, p) || OfEdge(edges, p)
  {
    var rows := QueriedNodes(store, selected);
    QueriedNodesFacts(store, selected);
    RecordTableHas(AllProvenance(rows, links), ProvenanceId, p);
    if p in Mapped(rows, NodeProvenance) {
      var r := MappedFrom(rows, NodeProvenance, p);
    }
    if p in Mapped(links, EdgeProvenance) {
      var l := MappedFrom(links, EdgeProvenance, p);
      assert l in Recorded(edges);
    }
    if OfNode(store, selected, p) {
      var r :| r in store.nodes && r.id in selected && r.provenance == p;
      MappedHas(rows, NodeProvenance, r);
    }
    if OfEdge(edges, p) {
      var id :| id in edges && edges[id].provenance == p;
      assert edges[id] in Recorded(edges);
      MappedHas(links, EdgeProvenance, edges[id]);
    }
  }

  // ----- derivations -----

  /** Rows in query order give each node's parents in order. */
  lemma {:induction false} GatheredAscends(rows: seq<ParentRow>, id: Id)
    requires SortedBy(rows, ParentRowKey)
    ensures Gathered(rows, id).Some? ==>
              var ps := Gathered(rows, id).value.parents;
              forall i, j :: 0 <= i < j < |ps| ==> Leq(ps[i], ps[j])
  {
    GatheredFacts(rows, id);
    if rows != [] {
      var front, last := rows[..|rows| - 1], rows[|rows| - 1];
      assert SortedBy(front, ParentRowKey);
      GatheredAscends(front, id);
      GatheredFacts(front, id);
      if last.record.nodeId == id && Gathered(front, id).Some? {
        var ps := Gathered(front, id).value.parents;
        forall i | 0 <= i < |ps|
          ensures Leq(ps[i], last.parent)
        {
          assert ps[i] in ps;
          var r :| r in front && r.record.nodeId == id && r.parent == ps[i];
          var k :| 0 <= k < |front| && front[k] == r;
          assert Leq(ParentRowKey(rows[k]), ParentRowKey(rows[|rows| - 1]));
          LeqPrefixed(id + [NUL], r.parent, last.parent);
        }
      }
    }
  }

  lemma SelectedDerivedExactly(store: ReadStore, selected: set<Id>, id: Id)
    requires WellKeyed(store)
    ensures id in DerivedNodes(QueriedNodes(store, selected)) <==> SelectedDerived(store, selected, id)
  {
    QueriedNodesFacts(store, selected);
  }

  lemma GatheredShown(store: ReadStore, derived: set<Id>, id: Id)
    requires HasRows(store.parents, derived) && id in derived
    ensures var g := Gathered(QueriedParents(store.parents, derived), id);
            && g.Some? && g.value.nodeId == id
            && (NoDuplicates(g.value.parents) ==> DerivationShown(store, g.value))
  {
    var rows := QueriedParents(store.parents, derived);
    QueriedMembers(store.parents, derived);
    GatheredRows(store.parents, derived, id);
    GatheredFacts(rows, id);
    SortFacts(WhereParents(store.parents, derived), ParentRowKey);
    GatheredAscends(rows, id);
    var d := Gathered(rows, id).value;
    var r :| r in rows && r.record.nodeId == id && r.Head() == d.(parents := []);
    assert r in store.parents && r.record.id == r.Head().id && r.record.useClass == r.Head().useClass;
    forall x
      ensures x in d.parents <==> ParentStored(store, id, x)
    {
    }
  }

  lemma ViewDerivationAt(store: ReadStore, selected: set<Id>, k: nat)
    requires WellKeyed(store) && HasRows(store.parents, DerivedIds(store, selected))
    requires k < |ViewDerivations(store, selected)|
    ensures var d := ViewDerivations(store, selected)[k];
            && SelectedDerived(store, selected, d.nodeId) && (NoDuplicates(d.parents) ==> DerivationShown(store, d))
  {
    var ids := DerivedNodes(QueriedNodes(store, selected));
    assert ids[k] in Elements(ids);
    GatheredShown(store, Elements(ids), ids[k]);
    SelectedDerivedExactly(store, selected, ids[k]);
  }

  lemma ViewDerivationOf(store: ReadStore, selected: set<Id>, id: Id)
    requires WellKeyed(store) && HasRows(store.parents, DerivedIds(store, selected))
    requires SelectedDerived(store, selected, id)
    ensures exists d :: d in ViewDerivations(store, selected) && d.nodeId == id
  {
    var ids := DerivedNodes(QueriedNodes(store, selected));
    SelectedDerivedExactly(store, selected, id);
    var k :| 0 <= k < |ids| && ids[k] == id;
    assert ids[k] in Elements(ids);
    GatheredShown(store, Elements(ids), id);
    assert ViewDerivations(store, selected)[k].nodeId == id;
  }

  lemma ViewDerivationsShown(codec: ReadCodec, store: ReadStore, selected: set<Id>, links: seq<EdgeRow>)
    requires WellKeyed(store) && HasRows(store.parents, DerivedIds(store, selected))
    requires forall d :: d in View(codec, store, selected, links).derivations ==> NoDuplicates(d.parents)
    ensures DerivationsShown(store, selected, View(codec, store, selected, links))
  {
    var a := View(codec, store, selected, links);
    var ds := ViewDerivations(store, selected);
    SortFacts(ds, DerivationId);
    forall d | d in a.derivations
      ensures SelectedDerived(store, selected, d.nodeId) && DerivationShown(store, d)
    {
      var k :| 0 <= k < |ds| && ds[k] == d;
      ViewDerivationAt(store, selected, k);
    }
    forall id | SelectedDerived(store, selected, id)
      ensures exists d :: d in a.derivations && d.nodeId == id
    {
      ViewDerivationOf(store, selected, id);
    }
  }

  // ----- the whole view -----

  lemma RowsAndSidecarsShown(
    codec: ReadCodec, store: ReadStore, selected: set<Id>, edges: map<Id, EdgeRow>, links: seq<EdgeRow>)
    requires WellKeyed(store) && Readable(store, selected, edges, links) && Lists(links, edges)
    ensures RowsShown(store, selected, edges, View(codec, store, selected, links))
    ensures SidecarsShown(store, selected, edges, View(codec, store, selected, links))
  {
    var a := View(codec, store, selected, links);
    forall n
      ensures n in a.nodes <==> NodeShown(store, selected, n)
    {
      NodesShownExactly(store, selected, n);
    }
    forall e
      ensures e in a.edges <==> EdgeShown(edges, e)
    {
      EdgesShownExactly(edges, links, e);
    }
    forall p
      ensures p in a.payloads <==> PayloadShown(store, selected, p)
    {
      PayloadsShownExactly(store, selected, p);
    }
    forall p
      ensures p in a.provenance <==> OfNode(store, selected, p) || OfEdge(edges, p)
    {
      ProvenanceShownExactly(store, selected, edges, links, p);
    }
    forall t
      ensures t in a.temporal <==> TemporalShown(store, selected, t)
    {
      TemporalShownExactly(store, selected, t);
    }
    forall i
      ensures i in a.integrity <==> IntegrityShown(store, selected, i)
    {
      IntegrityShownExactly(store, selected, i);
    }
  }

  lemma SortedAscends<T>(s: seq<T>, key: T -> string)
    requires DistinctKeys(SortBy(s, key), key)
    ensures forall i, j :: 0 <= i < j < |SortBy(s, key)| ==> Less(key(SortBy(s, key)[i]), key(SortBy(s, key)[j]))
  {
    SortFacts(s, key);
  }

  lemma ViewAscends(codec: ReadCodec, store: ReadStore, selected: set<Id>, links: seq<EdgeRow>)
    requires HasRows(store.parents, DerivedIds(store, selected))
    requires ValidArtifact(View(codec, store, selected, links), codec.digest)
    ensures Ascending(View(codec, store, selected, links))
  {
    var rows := QueriedNodes(store, selected);
    SortedAscends(Mapped(rows, ToNode), NodeId);
    SortedAscends(Mapped(links, ToEdge), EdgeId);
    SortedAscends(Dedupe(Mapped(rows, PayloadOf), PayloadId), PayloadId);
    SortedAscends(Dedupe(AllProvenance(rows, links), ProvenanceId), ProvenanceId);
    SortedAscends(Dedupe(Mapped(rows, TemporalOf), TemporalId), TemporalId);
    SortedAscends(Dedupe(Mapped(rows, IntegrityOf), IntegrityId), IntegrityId);
    SortedAscends(ViewDerivations(store, selected), DerivationId);
  }

  lemma PutHead(codec: ReadCodec, rows: seq<NodeRow>, links: seq<EdgeRow>, derivations: seq<Derivation>)
    ensures HeadShown(codec, Put(codec, rows, links, derivations))
  {
    var a := Put(codec, rows, links, derivations);
    SortFacts(derivations, DerivationId);
    if i :| 0 <= i < |derivations| && derivations[i].useClass != "" {
      assert derivations[i] in a.derivations;
    }
    if d :| d in a.derivations && d.useClass != "" {
      var i :| 0 <= i < |derivations| && derivations[i] == d;
    }
  }

  /**
   A successful read shows exactly the selected node rows and the recorded edge rows, each
   with its own records and in its own direction, and each derived node's stored derivation.
   */
  lemma AssembledPlainly(
    codec: ReadCodec, store: ReadStore, selected: set<Id>, edges: map<Id, EdgeRow>, links: seq<EdgeRow>)
    requires WellKeyed(store) && Assembles(codec, store, selected, edges, links) && Lists(links, edges)
    ensures Shown(codec, store, selected, edges, View(codec, store, selected, links))
  {
    RowsAndSidecarsShown(codec, store, selected, edges, links);
    ParentsDistinct(View(codec, store, selected, links), codec.digest);
    ViewDerivationsShown(codec, store, selected, links);
    ViewAscends(codec, store, selected, links);
    PutHead(codec, QueriedNodes(store, selected), links, ViewDerivations(store, selected));
  }

  lemma ParentsDistinct(a: Artifact, digest: Payload -> string)
    requires ValidArtifact(a, digest)
    ensures forall d :: d in a.derivations ==> NoDuplicates(d.parents)
  {
  }

  // ----- the neighbourhood -----

  ghost predicate Followed(relations: set<Relation>, e: EdgeRow) {
    relations == {} || e.relation in relations
  }

  /** Neighbours along one followed row, in either direction. */
  ghost predicate Hop(rows: seq<EdgeRow>, relations: set<Relation>, x: Id, y: Id) {
    exists e :: e in rows && Followed(relations, e) && ((e.from == x && e.to == y) || (e.from == y && e.to == x))
  }

  /** A walk of hops from a root. */
  ghost predicate WalkFrom(rows: seq<EdgeRow>, relations: set<Relation>, roots: set<Id>, path: seq<Id>) {
    && |path| > 0 && path[0] in roots
    && forall i :: 0 <= i < |path| - 1 ==> Hop(rows, relations, path[i], path[i + 1])
  }

  ghost predicate Within(rows: seq<EdgeRow>, relations: set<Relation>, roots: set<Id>, hops: int, x: Id) {
    exists path :: WalkFrom(rows, relations, roots, path) && |path| <= hops + 1 && path[|path| - 1] == x
  }

  lemma WalksAreHops(rows: seq<EdgeRow>, relations: set<Relation>, roots: set<Id>, path: seq<Id>)
    ensures WalkFrom(rows, relations, roots, path) <==>
            Walk(AllowedEdges(rows, relations), path) && path[0] in roots
  {
    var es := AllowedEdges(rows, relations);
    forall x, y
      ensures Joined(es, x, y) <==> Hop(rows, relations, x, y)
    {
      assert forall e :: e in es <==> e in rows && Followed(relations, e);
    }
  }

  /** The neighbourhood that a read is measured against: ends of walks, and the rows that touch shorter ones. */
  lemma NeighbourhoodPlainly(rows: seq<EdgeRow>, relations: set<Relation>, roots: set<Id>, depth: nat)
    ensures forall x :: x in Ball(AllowedEdges(rows, relations), roots, depth) <==>
                        Within(rows, relations, roots, depth, x)
    ensures forall e :: e in BallEdges(AllowedEdges(rows, relations), roots, depth) <==>
                        && e in rows && Followed(relations, e)
                        && (Within(rows, relations, roots, depth - 1, e.from)
                            || Within(rows, relations, roots, depth - 1, e.to))
  {
    forall x
      ensures x in Ball(AllowedEdges(rows, relations), roots, depth) <==> Within(rows, relations, roots, depth, x)
    {
      BallPlainly(rows, relations, roots, depth, x);
    }
    if depth > 0 {
      var less: nat := depth - 1;
      forall x
        ensures x in Ball(AllowedEdges(rows, relations), roots, less) <==> Within(rows, relations, roots, less, x)
      {
        BallPlainly(rows, relations, roots, less, x);
      }
    }
  }

  lemma BallPlainly(rows: seq<EdgeRow>, relations: set<Relation>, roots: set<Id>, k: nat, x: Id)
    ensures x in Ball(AllowedEdges(rows, relations), roots, k) <==> Within(rows, relations, roots, k, x)
  {
    var es := AllowedEdges(rows, relations);
    BallIsWalks(es, roots, k, x);
    if x in Ball(es, roots, k) {
      var path :| Walk(es, path) && path[0] in roots && path[|path| - 1] == x && |path| - 1 <= k;
      WalksAreHops(rows, relations, roots, path);
    }
    if Within(rows, relations, roots, k, x) {
      var path :| WalkFrom(rows, relations, roots, path) && |path| <= k + 1 && path[|path| - 1] == x;
      WalksAreHops(rows, relations, roots, path);
    }
  }
}
