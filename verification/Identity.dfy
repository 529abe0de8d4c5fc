/**
 Stable identities: the bytes that are hashed into a canonical id. Every part is trimmed
 and closed by NUL, except that the parents of a derivation are first joined by NUL into
 one part. Hashing itself is a function parameter.
 */
module Identity {
  import opened Ordering
  import opened Evidence
  import opened Outcomes

  // ----- trimming -----

  function TrimLeft(s: string): string {
    if s != "" && IsSpace(s[0]) then TrimLeft(s[1..]) else s
  }

  function TrimRight(s: string): string {
    if s != "" && IsSpace(s[|s| - 1]) then TrimRight(s[..|s| - 1]) else s
  }

  function TrimSpace(s: string): string {
    TrimRight(TrimLeft(s))
  }

  /** Nothing to trim at either end. */
  predicate Tight(s: string) {
    s == "" || (!IsSpace(s[0]) && !IsSpace(s[|s| - 1]))
  }

  lemma {:induction false} TrimLeftPart(s: string) returns (cut: nat)
    ensures cut <= |s| && TrimLeft(s) == s[cut..] && Blank(s[..cut])
    ensures TrimLeft(s) == "" || !IsSpace(TrimLeft(s)[0])
  {
    if s != "" && IsSpace(s[0]) {
      var rest := TrimLeftPart(s[1..]);
      cut := rest + 1;
      assert s[..cut] == [s[0]] + s[1..][..rest];
    } else {
      cut := 0;
    }
  }

  lemma {:induction false} TrimRightPart(s: string) returns (keep: nat)
    ensures keep <= |s| && TrimRight(s) == s[..keep] && Blank(s[keep..])
    ensures TrimRight(s) == "" || !IsSpace(TrimRight(s)[|TrimRight(s)| - 1])
  {
    if s != "" && IsSpace(s[|s| - 1]) {
      keep := TrimRightPart(s[..|s| - 1]);
      assert s[keep..] == s[..|s| - 1][keep..] + [s[|s| - 1]];
    } else {
      keep := |s|;
    }
  }

  /** What trimming leaves: the text between two blank margins, tight at both ends. */
  lemma TrimFacts(s: string)
    ensures Tight(TrimSpace(s))
    ensures exists i, j :: 0 <= i <= j <= |s| && TrimSpace(s) == s[i..j] && Blank(s[..i]) && Blank(s[j..])
    ensures Tight(s) ==> TrimSpace(s) == s
    ensures NulFree(s) ==> NulFree(TrimSpace(s))
  {
    var i := TrimLeftPart(s);
    var k := TrimRightPart(TrimLeft(s));
    assert TrimSpace(s) == s[i..i + k];
    assert s[i..][k..] == s[i + k..];
    if TrimSpace(s) != "" {
      assert TrimSpace(s)[0] == TrimLeft(s)[0];
    }
    if NulFree(s) {
      forall c | c in TrimSpace(s)
        ensures c in s
      {
      }
    }
  }

  lemma TrimIdempotent(s: string)
    ensures TrimSpace(TrimSpace(s)) == TrimSpace(s)
  {
    TrimFacts(s);
    TrimFacts(TrimSpace(s));
  }

  // ----- framing -----

  /** Each field followed by NUL. */
  function Terminated(fields: seq<string>): string {
    if fields == [] then "" else fields[0] + [NUL] + Terminated(fields[1..])
  }

  function Trimmed(parts: seq<string>): seq<string> {
    Mapped(parts, TrimSpace)
  }

  /** The bytes hashed for a list of parts. */
  function Frame(parts: seq<string>): string {
    if parts == [] then "" else TrimSpace(parts[0]) + [NUL] + Frame(parts[1..])
  }

  function StableCanonicalId(hash: string -> string, prefix: string, parts: seq<string>): Id {
    TrimSpace(prefix) + ":" + hash(Frame(parts))
  }

  predicate HexDigit(c: char) {
    '0' <= c <= '9' || 'a' <= c <= 'f'
  }

  /** Lower-case hexadecimal output, as the program encodes its hashes. */
  ghost predicate HexHash(hash: string -> string) {
    forall s :: hash(s) != "" && forall i :: 0 <= i < |hash(s)| ==> HexDigit(hash(s)[i])
  }

  ghost predicate CollisionFree(hash: string -> string) {
    forall s, t :: hash(s) == hash(t) ==> s == t
  }

  predicate AllNulFree(fields: seq<string>) {
    forall i :: 0 <= i < |fields| ==> NulFree(fields[i])
  }

  lemma {:induction false} FrameIsTerminated(parts: seq<string>)
    ensures Frame(parts) == Terminated(Trimmed(parts))
  {
    if parts != [] {
      FrameIsTerminated(parts[1..]);
      assert Trimmed(parts)[1..] == Trimmed(parts[1..]);
    }
  }

  lemma {:induction false} TerminatedJoin(a: seq<string>, b: seq<string>)
    ensures Terminated(a + b) == Terminated(a) + Terminated(b)
  {
    if a == [] {
      assert a + b == b;
    } else {
      TerminatedJoin(a[1..], b);
      assert (a + b)[0] == a[0] && (a + b)[1..] == a[1..] + b;
    }
  }

  /** NUL-free fields can be read back from their frame, their number included. */
  lemma {:induction false} TerminatedInjective(a: seq<string>, b: seq<string>)
    requires AllNulFree(a) && AllNulFree(b) && Terminated(a) == Terminated(b)
    ensures a == b
  {
    if a == [] || b == [] {
      assert a == [] && b == [];
    } else {
      assert Terminated(a) == PairKey(a[0], Terminated(a[1..]));
      assert Terminated(b) == PairKey(b[0], Terminated(b[1..]));
      PairKeyInjective(a[0], Terminated(a[1..]), b[0], Terminated(b[1..]));
      TerminatedInjective(a[1..], b[1..]);
      assert a == [a[0]] + a[1..] && b == [b[0]] + b[1..];
    }
  }

  // ----- the identity of a derivation-backed node -----

  const NODE_PREFIX := "canon-node:"

  const EDGE_PREFIX := "canon-edge:"

  predicate HasEdgePrefix(id: Id) {
    EDGE_PREFIX <= id
  }

  predicate HasNodePrefix(id: Id) {
    NODE_PREFIX <= id
  }

  function JoinNul(parents: seq<Id>): string {
    if parents == [] then ""
    else if |parents| == 1 then parents[0]
    else parents[0] + [NUL] + JoinNul(parents[1..])
  }

  datatype DerivedIdentity = DerivedIdentity(
    kind: string, occurrence: Id, statement: string, parents: seq<Id>, methodName: string, producer: string,
    traceRef: string)
  {
    function Parts(): seq<string> {
      [kind, occurrence, statement, JoinNul(parents), methodName, producer, traceRef]
    }

    /** Parents as normalization leaves them: at least one, tight, carrying the node prefix. */
    predicate Normal() {
      parents != [] && forall p :: p in parents ==> HasNodePrefix(p) && Tight(p) && NulFree(p)
    }

    predicate NulFreeFields() {
      NulFree(kind) && NulFree(occurrence) && NulFree(statement) && NulFree(methodName) && NulFree(producer)
      && NulFree(traceRef)
    }

    /** The fields a frame holds, one per NUL. */
    function Fields(): seq<string> {
      [TrimSpace(kind), TrimSpace(occurrence), TrimSpace(statement)] + parents
      + [TrimSpace(methodName), TrimSpace(producer), TrimSpace(traceRef)]
    }

    predicate SameUpToMargins(other: DerivedIdentity) {
      && TrimSpace(kind) == TrimSpace(other.kind) && TrimSpace(occurrence) == TrimSpace(other.occurrence)
      && TrimSpace(statement) == TrimSpace(other.statement) && parents == other.parents
      && TrimSpace(methodName) == TrimSpace(other.methodName) && TrimSpace(producer) == TrimSpace(other.producer)
      && TrimSpace(traceRef) == TrimSpace(other.traceRef)
    }
  }

  lemma {:induction false} JoinFacts(parents: seq<Id>)
    requires parents != [] && forall p :: p in parents ==> HasNodePrefix(p) && Tight(p)
    ensures Terminated(parents) == JoinNul(parents) + [NUL]
    ensures JoinNul(parents) != "" && Tight(JoinNul(parents))
  {
    assert HasNodePrefix(parents[0]) && parents[0] != "";
    if |parents| == 1 {
      assert Terminated(parents[1..]) == "";
    } else {
      JoinFacts(parents[1..]);
      assert JoinNul(parents)[0] == parents[0][0];
      assert JoinNul(parents)[|JoinNul(parents)| - 1] == JoinNul(parents[1..])[|JoinNul(parents[1..])| - 1];
    }
  }

  lemma FrameOfIdentity(d: DerivedIdentity)
    requires d.Normal()
    ensures Frame(d.Parts()) == Terminated(d.Fields())
  {
    JoinFacts(d.parents);
    TrimFacts(JoinNul(d.parents));
    FrameIsTerminated(d.Parts());
    var head := [TrimSpace(d.kind), TrimSpace(d.occurrence), TrimSpace(d.statement)];
    var tail := [TrimSpace(d.methodName), TrimSpace(d.producer), TrimSpace(d.traceRef)];
    TrimmedParts(d);
    assert Terminated([JoinNul(d.parents)]) == Terminated(d.parents);
    SameMiddle(head, [JoinNul(d.parents)], d.parents, tail);
  }

  lemma TrimmedParts(d: DerivedIdentity)
    requires TrimSpace(JoinNul(d.parents)) == JoinNul(d.parents)
    ensures Trimmed(d.Parts()) ==
            [TrimSpace(d.kind), TrimSpace(d.occurrence), TrimSpace(d.statement)] + [JoinNul(d.parents)]
                                  + [TrimSpace(d.methodName), TrimSpace(d.producer), TrimSpace(d.traceRef)]
  {
  }

  /** Replacing fields by others with the same bytes keeps the frame. */
  lemma SameMiddle(head: seq<string>, middle: seq<string>, middle': seq<string>, tail: seq<string>)
    requires Terminated(middle) == Terminated(middle')
    ensures Terminated(head + middle + tail) == Terminated(head + middle' + tail)
  {
    TerminatedJoin(head + middle, tail);
    TerminatedJoin(head, middle);
    TerminatedJoin(head + middle', tail);
    TerminatedJoin(head, middle');
  }

  /**
   Framing is injective although parents are NUL-joined inside one part: two NUL-free
   identities hash the same bytes exactly when they agree up to surrounding space.
   */
  lemma FramingInjective(d: DerivedIdentity, e: DerivedIdentity)
    requires d.Normal() && e.Normal() && d.NulFreeFields() && e.NulFreeFields()
    ensures Frame(d.Parts()) == Frame(e.Parts()) <==> d.SameUpToMargins(e)
  {
    FrameOfIdentity(d);
    FrameOfIdentity(e);
    if Frame(d.Parts()) == Frame(e.Parts()) {
      FieldsNulFree(d);
      FieldsNulFree(e);
      TerminatedInjective(d.Fields(), e.Fields());
      var n := |d.parents|;
      assert |d.Fields()| == n + 6 == |e.parents| + 6;
      assert d.parents == d.Fields()[3..n + 3] && e.parents == e.Fields()[3..n + 3];
      assert d.Fields()[0] == e.Fields()[0] && d.Fields()[1] == e.Fields()[1] && d.Fields()[2] == e.Fields()[2];
      assert d.Fields()[n + 3] == e.Fields()[n + 3] && d.Fields()[n + 4] == e.Fields()[n + 4];
      assert d.Fields()[n + 5] == e.Fields()[n + 5];
    }
  }

  lemma NulFreeJoin(a: seq<string>, b: seq<string>)
    requires AllNulFree(a) && AllNulFree(b)
    ensures AllNulFree(a + b)
  {
  }

  lemma ThreeNulFree(a: string, b: string, c: string)
    requires NulFree(a) && NulFree(b) && NulFree(c)
    ensures AllNulFree([TrimSpace(a), TrimSpace(b), TrimSpace(c)])
  {
    TrimFacts(a);
    TrimFacts(b);
    TrimFacts(c);
  }

  lemma FieldsNulFree(d: DerivedIdentity)
    requires d.Normal() && d.NulFreeFields()
    ensures AllNulFree(d.Fields())
  {
    var head := [TrimSpace(d.kind), TrimSpace(d.occurrence), TrimSpace(d.statement)];
    var tail := [TrimSpace(d.methodName), TrimSpace(d.producer), TrimSpace(d.traceRef)];
    ThreeNulFree(d.kind, d.occurrence, d.statement);
    ThreeNulFree(d.methodName, d.producer, d.traceRef);
    assert AllNulFree(d.parents);
    NulFreeJoin(head, d.parents);
    NulFreeJoin(head + d.parents, tail);
  }

  function More(d: DerivedIdentity, p: Id): DerivedIdentity {
    d.(parents := [p] + d.parents)
  }

  function Merged(d: DerivedIdentity, p: Id): DerivedIdentity {
    d.(statement := d.statement + [NUL] + p)
  }

  lemma MergedFrame(head: seq<string>, statement: string, p: Id, tail: seq<string>)
    ensures Terminated(head + [statement, p] + tail) == Terminated(head + [statement + [NUL] + p] + tail)
  {
    TerminatedJoin([statement], [p]);
    assert [statement, p] == [statement] + [p];
    SameMiddle(head, [statement, p], [statement + [NUL] + p], tail);
  }

  lemma MergedTight(statement: string, p: Id)
    requires Tight(statement) && statement != "" && Tight(p) && p != ""
    ensures TrimSpace(statement) == statement
    ensures TrimSpace(statement + [NUL] + p) == statement + [NUL] + p
  {
    var merged := statement + [NUL] + p;
    assert merged[0] == statement[0] && merged[|merged| - 1] == p[|p| - 1];
    TrimFacts(statement);
    TrimFacts(merged);
  }

  lemma MergedFields(d: DerivedIdentity, p: Id)
    requires TrimSpace(d.statement) == d.statement
    requires TrimSpace(Merged(d, p).statement) == Merged(d, p).statement
    ensures Terminated(More(d, p).Fields()) == Terminated(Merged(d, p).Fields())
  {
    var head := [TrimSpace(d.kind), TrimSpace(d.occurrence)];
    var margin := [TrimSpace(d.methodName), TrimSpace(d.producer), TrimSpace(d.traceRef)];
    var tail := d.parents + margin;
    assert head + [d.statement, p] + tail == head + [d.statement] + ([p] + d.parents) + margin;
    assert head + [Merged(d, p).statement] + tail == head + [Merged(d, p).statement] + d.parents + margin;
    assert More(d, p).Fields() == head + [d.statement, p] + tail;
    assert Merged(d, p).Fields() == head + [Merged(d, p).statement] + tail;
    MergedFrame(head, d.statement, p, tail);
  }

  /** Without that condition a statement can pass for a shorter one and one more parent. */
  lemma FramingNeedsNulFree(d: DerivedIdentity, p: Id)
    requires d.Normal() && HasNodePrefix(p) && Tight(p) && NulFree(p)
    requires Tight(d.statement) && d.statement != ""
    ensures More(d, p).Normal() && Merged(d, p).Normal()
    ensures Frame(More(d, p).Parts()) == Frame(Merged(d, p).Parts()) && !More(d, p).SameUpToMargins(Merged(d, p))
  {
    FrameOfIdentity(More(d, p));
    FrameOfIdentity(Merged(d, p));
    MergedTight(d.statement, p);
    MergedFields(d, p);
  }

  // ----- normalizing parents -----

  const MAX_DERIVATION_PARENTS: nat := 64

  datatype ParentError = NoParents | TooManyParents | BadPrefix(parent: Id) | Duplicated(parent: Id)

  predicate ParentsAcceptable(values: seq<Id>) {
    && 0 < |values| <= MAX_DERIVATION_PARENTS
    && (forall i :: 0 <= i < |values| ==> HasNodePrefix(TrimSpace(values[i])))
    && NoDuplicates(Trimmed(values))
  }

  /** The sorted list of trimmed ids. */
  method NormalizeDerivationParents(values: seq<Id>) returns (r: Result<seq<Id>, ParentError>)
    ensures r.Ok? <==> ParentsAcceptable(values)
    ensures r.Ok? ==> r.value == SortBy(Trimmed(values), SelfKey)
  {
    if |values| == 0 {
      return Err(NoParents);
    }
    if |values| > MAX_DERIVATION_PARENTS {
      return Err(TooManyParents);
    }
    var parents, seen := [], {};
    for i := 0 to |values|
      invariant parents == Trimmed(values)[..i]
      invariant seen == Elements(parents)
      invariant NoDuplicates(parents)
      invariant forall k :: 0 <= k < i ==> HasNodePrefix(TrimSpace(values[k]))
    {
      var parent := TrimSpace(values[i]);
      assert Trimmed(values)[i] == parent;
      if !HasNodePrefix(parent) {
        return Err(BadPrefix(parent));
      }
      if parent in seen {
        ghost var k :| 0 <= k < i && parents[k] == parent;
        assert Trimmed(values)[k] == Trimmed(values)[i];
        return Err(Duplicated(parent));
      }
      assert Trimmed(values)[..i + 1] == parents + [parent];
      seen := seen + {parent};
      parents := parents + [parent];
    }
    assert Trimmed(values)[..|values|] == Trimmed(values);
    return Ok(SortBy(parents, SelfKey));
  }

  /** The order and the margins of the given parents do not reach the identity. */
  lemma ParentOrderIrrelevant(values: seq<Id>, values': seq<Id>)
    requires ParentsAcceptable(values) && ParentsAcceptable(values')
    requires forall p :: p in Trimmed(values) <==> p in Trimmed(values')
    ensures SortBy(Trimmed(values), SelfKey) == SortBy(Trimmed(values'), SelfKey)
  {
    var s, t := SortBy(Trimmed(values), SelfKey), SortBy(Trimmed(values'), SelfKey);
    SortFacts(Trimmed(values), SelfKey);
    SortFacts(Trimmed(values'), SelfKey);
    DistinctKeysPermuted(Trimmed(values), s, SelfKey);
    DistinctKeysPermuted(Trimmed(values'), t, SelfKey);
    SortedUnique(s, t, SelfKey);
  }

  // ----- provenance ids -----

  /** The id of the provenance record that belongs to one node or edge. */
  function ProvenanceIdOf(hash: string -> string, id: Id): Id {
    StableCanonicalId(hash, "provenance", [id])
  }

  lemma BlankBetween(s: string, lo: nat, hi: nat)
    requires lo <= hi <= |s| && Blank(s[lo..hi])
    ensures forall k :: lo <= k < hi ==> IsSpace(s[k])
  {
    forall k | lo <= k < hi
      ensures IsSpace(s[k])
    {
      assert s[lo..hi][k - lo] == s[k];
    }
  }

  lemma TrimKeeps(s: string, k: nat)
    requires k < |s| && !IsSpace(s[0]) && !IsSpace(s[k])
    ensures k < |TrimSpace(s)| && TrimSpace(s)[..k + 1] == s[..k + 1]
  {
    TrimFacts(s);
    var i, j :| 0 <= i <= j <= |s| && TrimSpace(s) == s[i..j] && Blank(s[..i]) && Blank(s[j..]);
    assert s[..i] == s[0..i] && s[j..] == s[j..|s|];
    BlankBetween(s, 0, i);
    BlankBetween(s, j, |s|);
  }

  /** Without collisions no node's provenance record is an edge's. */
  lemma ProvenanceIdsDiffer(hash: string -> string, nodeId: Id, edgeId: Id)
    requires forall s, t :: hash(s) == hash(t) ==> s == t
    requires HasNodePrefix(nodeId) && HasEdgePrefix(edgeId)
    ensures ProvenanceIdOf(hash, nodeId) != ProvenanceIdOf(hash, edgeId)
  {
    TrimKeeps(nodeId, 10);
    TrimKeeps(edgeId, 10);
    assert nodeId[6] == NODE_PREFIX[6] && edgeId[6] == EDGE_PREFIX[6];
    assert TrimSpace(nodeId)[..11][6] != TrimSpace(edgeId)[..11][6];
    assert Frame([nodeId])[6] == TrimSpace(nodeId)[6] && Frame([edgeId])[6] == TrimSpace(edgeId)[6];
    var head := TrimSpace("provenance") + ":";
    assert ProvenanceIdOf(hash, nodeId)[|head|..] == hash(Frame([nodeId]));
    assert ProvenanceIdOf(hash, edgeId)[|head|..] == hash(Frame([edgeId]));
  }
}
