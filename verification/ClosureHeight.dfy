/**
 The memoised depth-first search behind recursive AND evidence: one walk from the
 root detects missing parents, cycles, too many derived layers and unrelated nodes.
 The walk is proved against a declarative reading of the graph in terms of chains.
 */
module ClosureHeight {
  import opened Outcomes
  import opened Evidence
  import opened Ordering

  const MAX_RECURSIVE_DEPTH: nat := 8

  datatype ClosureError = Cycle | MissingParent | DepthBound | Unrelated

  /** The two maps the search reads: node kinds, and the parent list of each derivation. */
  datatype Graph = Graph(nodes: map<Id, NodeKind>, parents: map<Id, seq<Id>>) {

    /** Every node that is not a source claim is expanded, whatever its kind. */
    predicate Inner(id: Id) {
      id in nodes && nodes[id] != SourceClaim
    }

    /** A node without a derivation record reads as having no parents. */
    function Parents(id: Id): seq<Id> {
      if id in parents then parents[id] else []
    }

    predicate Step(x: Id, y: Id) {
      Inner(x) && y in Parents(x)
    }

    /** A nonempty walk along parents. */
    predicate Chain(p: seq<Id>) {
      |p| > 0 && (|p| == 1 || (Step(p[0], p[1]) && Chain(p[1..])))
    }

    /** The number of expanded nodes on a chain: all but possibly the last. */
    function Layers(p: seq<Id>): nat
      requires |p| > 0
    {
      |p| - 1 + if Inner(p[|p| - 1]) then 1 else 0
    }

    ghost predicate ChainTo(root: Id, p: seq<Id>, x: Id) {
      Chain(p) && p[0] == root && p[|p| - 1] == x
    }

    ghost predicate Reached(root: Id, x: Id) {
      exists p :: ChainTo(root, p, x)
    }

    ghost predicate HasMissing(root: Id) {
      exists x :: Reached(root, x) && x !in nodes
    }

    ghost predicate HasCycle(root: Id) {
      exists p, x :: |p| > 1 && ChainTo(x, p, x) && Reached(root, x)
    }

    ghost predicate TooDeep(root: Id) {
      exists p :: Chain(p) && p[0] == root && Layers(p) > MAX_RECURSIVE_DEPTH
    }

    ghost predicate HasUnrelated(root: Id) {
      exists x :: x in nodes && !Reached(root, x)
    }

    /** What a well-formed recursive closure is, without reference to any search. */
    ghost predicate Acceptable(root: Id) {
      !HasMissing(root) && !HasCycle(root) && !TooDeep(root) && !HasUnrelated(root)
    }

    /** Each error names a defect the graph really has. */
    ghost predicate Truthful(root: Id, e: ClosureError) {
      match e
      case Cycle => HasCycle(root)
      case MissingParent => HasMissing(root)
      case DepthBound => TooDeep(root)
      case Unrelated => HasUnrelated(root)
    }

    /** Heights that are exact one step at a time; such a map certifies its whole domain. */
    ghost predicate Ranked(heights: map<Id, nat>) {
      forall x {:trigger RankedAt(heights, x)} :: x in heights ==> RankedAt(heights, x)
    }

    ghost predicate RankedAt(heights: map<Id, nat>, x: Id)
      requires x in heights
    {
      && x in nodes
      && (!Inner(x) ==> heights[x] == 0)
      && (Inner(x) ==>
            && 1 <= heights[x] <= MAX_RECURSIVE_DEPTH
            && (forall y :: y in Parents(x) ==> y in heights && heights[y] < heights[x])
            && (heights[x] == 1 || exists y :: y in Parents(x) && y in heights && heights[x] == heights[y] + 1))
    }

    /** The longest chain from x, which a height is meant to measure. */
    ghost predicate LongestFrom(x: Id, h: nat) {
      && (exists p :: Chain(p) && p[0] == x && Layers(p) == h)
      && (forall p :: Chain(p) && p[0] == x ==> Layers(p) <= h)
    }
  }

  // ----- chains -----

  lemma {:induction false} ChainConcat(g: Graph, p: seq<Id>, q: seq<Id>)
    requires g.Chain(p) && g.Chain(q) && g.Step(p[|p| - 1], q[0])
    ensures g.Chain(p + q)
  {
    if |p| == 1 {
      assert (p + q)[1..] == q;
    } else {
      ChainConcat(g, p[1..], q);
      assert (p + q)[1..] == p[1..] + q;
    }
  }

  lemma {:induction false} ChainDrop(g: Graph, p: seq<Id>, k: nat)
    requires g.Chain(p) && k < |p|
    ensures g.Chain(p[k..])
  {
    if k == 0 {
      assert p[0..] == p;
    } else {
      ChainDrop(g, p[1..], k - 1);
      assert p[1..][k - 1..] == p[k..];
    }
  }

  /** Inside a ranked map a chain never leaves the map and loses one rank per step. */
  lemma {:induction false} RankedChain(g: Graph, heights: map<Id, nat>, p: seq<Id>)
    requires g.Ranked(heights) && g.Chain(p) && p[0] in heights
    ensures forall x :: x in p ==> x in heights
    ensures heights[p[|p| - 1]] + |p| - 1 <= heights[p[0]]
    ensures g.Layers(p) <= heights[p[0]]
  {
    assert g.RankedAt(heights, p[0]);
    if |p| > 1 {
      RankedChain(g, heights, p[1..]);
      assert p == [p[0]] + p[1..];
    }
    assert g.RankedAt(heights, p[|p| - 1]);
  }

  /** A rank is attained by a chain of that many layers. */
  lemma {:induction false} RankAttained(g: Graph, heights: map<Id, nat>, x: Id) returns (p: seq<Id>)
    requires g.Ranked(heights) && x in heights
    ensures g.Chain(p) && p[0] == x && g.Layers(p) == heights[x]
    decreases heights[x]
  {
    assert g.RankedAt(heights, x);
    p := [x];
    if heights[x] > 1 {
      var y :| y in g.Parents(x) && y in heights && heights[x] == heights[y] + 1;
      var q := RankAttained(g, heights, y);
      ChainConcat(g, [x], q);
      p := [x] + q;
    }
  }

  lemma RankedExtend(g: Graph, heights: map<Id, nat>, x: Id, h: nat)
    requires g.Ranked(heights) && x !in heights && g.RankedAt(heights[x := h], x)
    ensures g.Ranked(heights[x := h])
  {
    forall y {:trigger g.RankedAt(heights[x := h], y)} | y in heights[x := h]
      ensures g.RankedAt(heights[x := h], y)
    {
      if y != x {
        assert g.RankedAt(heights, y);
      }
    }
  }

  /** A ranked map is a certificate: heights are longest-chain lengths. */
  lemma RankedIsLongest(g: Graph, heights: map<Id, nat>, x: Id)
    requires g.Ranked(heights) && x in heights
    ensures g.LongestFrom(x, heights[x])
  {
    var p := RankAttained(g, heights, x);
    forall q | g.Chain(q) && q[0] == x
      ensures g.Layers(q) <= heights[x]
    {
      RankedChain(g, heights, q);
    }
  }

  /** A ranked map holding the root rules out every defect except unrelated nodes. */
  lemma RankedCertifies(g: Graph, heights: map<Id, nat>, root: Id)
    requires g.Ranked(heights) && root in heights
    ensures !g.HasMissing(root) && !g.HasCycle(root) && !g.TooDeep(root)
    ensures forall x :: g.Reached(root, x) ==> x in heights
  {
    forall x | g.Reached(root, x)
      ensures x in heights && x in g.nodes
    {
      var p :| g.ChainTo(root, p, x);
      RankedChain(g, heights, p);
      assert g.RankedAt(heights, x);
    }
    forall p, x | |p| > 1 && g.ChainTo(x, p, x) && g.Reached(root, x)
      ensures false
    {
      RankedChain(g, heights, p);
    }
    forall p | g.Chain(p) && p[0] == root
      ensures g.Layers(p) <= MAX_RECURSIVE_DEPTH
    {
      RankedChain(g, heights, p);
      assert g.RankedAt(heights, root);
    }
  }

  // ----- the search -----

  /** No recorded height is ever forgotten or changed. */
  ghost predicate Kept(before: map<Id, nat>, after: map<Id, nat>) {
    forall x :: x in before ==> x in after && after[x] == before[x]
  }

  /** height is one more than the largest height among these parents, and at least 1. */
  ghost predicate MaxSoFar(heights: map<Id, nat>, parents: seq<Id>, height: nat) {
    && 1 <= height
    && (forall y :: y in parents ==> y in heights && heights[y] < height)
    && (height == 1 || exists y :: y in parents && y in heights && height == heights[y] + 1)
  }

  lemma MaxStep(before: map<Id, nat>, after: map<Id, nat>, parents: seq<Id>, i: nat, height: nat)
    requires i < |parents| && MaxSoFar(before, parents[..i], height)
    requires Kept(before, after) && parents[i] in after
    ensures MaxSoFar(after, parents[..i + 1], if 1 + after[parents[i]] > height then 1 + after[parents[i]] else height)
  {
    assert parents[..i + 1] == parents[..i] + [parents[i]];
    if height != 1 {
      var y :| y in parents[..i] && y in before && height == before[y] + 1;
      assert y in parents[..i + 1];
    }
  }

  ghost predicate ExpandedAtMostOnce(g: Graph, expanded: seq<Id>) {
    NoDuplicates(expanded) && forall x :: x in expanded ==> x in g.nodes
  }

  /**
   What holds between calls: the active nodes form a chain from the root without
   repetition, heights are exact for reached nodes that are no longer active, and
   no node has been expanded twice.
   */
  ghost predicate SearchInvariant(g: Graph, root: Id, stack: seq<Id>, heights: map<Id, nat>, expanded: seq<Id>) {
    && NoDuplicates(stack)
    && (forall x :: x in stack ==> g.Inner(x))
    && (stack != [] ==> g.ChainTo(root, stack, stack[|stack| - 1]))
    && g.Ranked(heights)
    && (forall x :: x in heights ==> x !in stack && g.Reached(root, x))
    && ExpandedAtMostOnce(g, expanded)
    && (forall x :: x in expanded ==> x in stack || x in heights)
  }

  lemma Push(g: Graph, root: Id, stack: seq<Id>, heights: map<Id, nat>, expanded: seq<Id>, id: Id)
    requires SearchInvariant(g, root, stack, heights, expanded)
    requires id !in stack && id !in heights && g.Inner(id) && g.ChainTo(root, stack + [id], id)
    ensures SearchInvariant(g, root, stack + [id], heights, expanded + [id])
  {
  }

  lemma Pop(g: Graph, root: Id, stack: seq<Id>, heights: map<Id, nat>, expanded: seq<Id>, id: Id, height: nat)
    requires SearchInvariant(g, root, stack + [id], heights, expanded)
    requires MayVisit(g, root, stack, id)
    requires MaxSoFar(heights, g.Parents(id), height) && height <= MAX_RECURSIVE_DEPTH
    ensures SearchInvariant(g, root, stack, heights[id := height], expanded)
  {
    var all := stack + [id];
    assert all[|stack|] == id && all[..|stack|] == stack;
    assert g.ChainTo(root, all, id);
    RankAtMax(g, heights, id, height);
    RankedExtend(g, heights, id, height);
  }

  lemma RankAtMax(g: Graph, heights: map<Id, nat>, id: Id, height: nat)
    requires g.Inner(id) && id !in heights
    requires MaxSoFar(heights, g.Parents(id), height) && height <= MAX_RECURSIVE_DEPTH
    ensures g.RankedAt(heights[id := height], id)
  {
    if height != 1 {
      var y :| y in g.Parents(id) && y in heights && height == heights[y] + 1;
      assert y in heights[id := height] && height == heights[id := height][y] + 1;
    }
  }

  /** The next node to visit is the root or a parent of the innermost active node. */
  ghost predicate MayVisit(g: Graph, root: Id, stack: seq<Id>, id: Id) {
    if stack == [] then id == root else g.ChainTo(root, stack, stack[|stack| - 1]) && g.Step(stack[|stack| - 1], id)
  }

  lemma PathToVisited(g: Graph, root: Id, stack: seq<Id>, id: Id)
    requires MayVisit(g, root, stack, id)
    ensures g.ChainTo(root, stack + [id], id)
  {
    if stack == [] {
      assert stack + [id] == [id];
    } else {
      ChainConcat(g, stack, [id]);
    }
  }

  lemma CycleFound(g: Graph, root: Id, stack: seq<Id>, id: Id)
    requires MayVisit(g, root, stack, id) && id in stack
    ensures g.HasCycle(root)
  {
    PathToVisited(g, root, stack, id);
    var k :| 0 <= k < |stack| && stack[k] == id;
    var walk := stack + [id];
    ChainDrop(g, walk, k);
    assert g.ChainTo(id, walk[k..], id);
    assert g.Reached(root, id);
  }

  lemma TooDeepFound(g: Graph, root: Id, stack: seq<Id>, id: Id, tail: seq<Id>)
    requires MayVisit(g, root, stack, id)
    requires g.Chain(tail) && tail[0] == id && |stack| + g.Layers(tail) > MAX_RECURSIVE_DEPTH
    ensures g.TooDeep(root)
  {
    if stack != [] {
      ChainConcat(g, stack, tail);
      var walk := stack + tail;
      assert walk[|walk| - 1] == tail[|tail| - 1];
      assert g.Chain(walk) && walk[0] == root && g.Layers(walk) > MAX_RECURSIVE_DEPTH;
    }
  }

  lemma TooHighFound(g: Graph, root: Id, stack: seq<Id>, id: Id, heights: map<Id, nat>, height: nat)
    requires MayVisit(g, root, stack, id) && g.Inner(id) && g.Ranked(heights)
    requires MaxSoFar(heights, g.Parents(id), height) && height > MAX_RECURSIVE_DEPTH
    ensures g.TooDeep(root)
  {
    var y :| y in g.Parents(id) && y in heights && height == heights[y] + 1;
    var tail := RankAttained(g, heights, y);
    ChainConcat(g, [id], tail);
    TooDeepFound(g, root, stack, id, [id] + tail);
  }

  /** The closure-captured state of the recursive search. */
  class HeightSearch {
    const g: Graph
    const root: Id
    var active: set<Id>
    var heights: map<Id, nat>
    ghost var expanded: seq<Id>  // every node whose parents were ever enumerated, in order

    constructor (g: Graph, root: Id)
      ensures this.g == g && this.root == root
      ensures Valid([])
    {
      this.g, this.root := g, root;
      active, heights, expanded := {}, map[], [];
    }

    /** stack lists the active nodes in visiting order. */
    ghost predicate Valid(stack: seq<Id>)
      reads this
    {
      && active == (set x | x in stack)
      && |active| == |stack|
      && SearchInvariant(g, root, stack, heights, expanded)
    }

    /** The checks made before a node's parents are enumerated. */
    method Visit(id: Id, ghost stack: seq<Id>) returns (r: Result<nat, ClosureError>)
      requires Valid(stack) && MayVisit(g, root, stack, id) && |stack| <= MAX_RECURSIVE_DEPTH
      modifies this
      ensures r.Ok? ==> Valid(stack) && id in heights && r.value == heights[id] <= MAX_RECURSIVE_DEPTH
      ensures r.Ok? ==> Kept(old(heights), heights)
      ensures r.Err? ==> !r.error.Unrelated? && g.Truthful(root, r.error) && ExpandedAtMostOnce(g, expanded)
      decreases MAX_RECURSIVE_DEPTH - |stack|, 1
    {
      PathToVisited(g, root, stack, id);
      if id in active {
        CycleFound(g, root, stack, id);
        return Err(Cycle);
      }
      if id in heights {
        assert g.RankedAt(heights, id);
        return Ok(heights[id]);
      }
      assert g.Reached(root, id);
      if id !in g.nodes {
        return Err(MissingParent);
      }
      if g.nodes[id] == SourceClaim {
        RankedExtend(g, heights, id, 0);
        heights := heights[id := 0];
        return Ok(0);
      }
      if |active| >= MAX_RECURSIVE_DEPTH {
        TooDeepFound(g, root, stack, id, [id]);
        return Err(DepthBound);
      }
      r := Expand(id, stack);
    }

    /** Enumerates the parents of one active node and records its height. */
    method Expand(id: Id, ghost stack: seq<Id>) returns (r: Result<nat, ClosureError>)
      requires Valid(stack) && MayVisit(g, root, stack, id) && |stack| < MAX_RECURSIVE_DEPTH
      requires g.Inner(id) && id !in active && id !in heights
      modifies this
      ensures r.Ok? ==> Valid(stack) && id in heights && r.value == heights[id] <= MAX_RECURSIVE_DEPTH
      ensures r.Ok? ==> Kept(old(heights), heights)
      ensures r.Err? ==> !r.error.Unrelated? && g.Truthful(root, r.error) && ExpandedAtMostOnce(g, expanded)
      decreases MAX_RECURSIVE_DEPTH - |stack|, 0
    {
      PathToVisited(g, root, stack, id);
      Push(g, root, stack, heights, expanded, id);
      ghost var inner := stack + [id];
      active, expanded := active + {id}, expanded + [id];
      var height: nat := 1;
      var parents := g.Parents(id);
      for i := 0 to |parents|
        invariant Valid(inner)
        invariant Kept(old(heights), heights)
        invariant MaxSoFar(heights, parents[..i], height)
        invariant height <= MAX_RECURSIVE_DEPTH + 1
      {
        ghost var before := heights;
        var parent := Visit(parents[i], inner);
        if parent.Err? {
          return parent;
        }
        MaxStep(before, heights, parents, i, height);
        height := if 1 + parent.value > height then 1 + parent.value else height;
      }
      assert parents[..|parents|] == parents;
      active := active - {id};
      if height > MAX_RECURSIVE_DEPTH {
        TooHighFound(g, root, stack, id, heights, height);
        return Err(DepthBound);
      }
      Pop(g, root, stack, heights, expanded, id, height);
      heights := heights[id := height];
      return Ok(height);
    }
  }

  /**
   Accepts exactly the acceptable graphs, and every rejection names a defect the graph has.
   */
  method RecursiveClosureHeight(g: Graph, root: Id)
    returns (r: Option<ClosureError>, ghost height: nat, ghost expanded: seq<Id>)
    ensures r.None? <==> g.Acceptable(root)
    ensures r.Some? ==> g.Truthful(root, r.value)
    ensures r == Some(Unrelated) ==> !g.HasMissing(root) && !g.HasCycle(root) && !g.TooDeep(root)
    ensures r.None? ==> g.LongestFrom(root, height)
    ensures ExpandedAtMostOnce(g, expanded)
  {
    height := 0;
    var search := new HeightSearch(g, root);
    var visited := search.Visit(root, []);
    expanded := search.expanded;
    if visited.Err? {
      r := Some(visited.error);
      return;
    }
    height := visited.value;
    RankedCertifies(g, search.heights, root);
    RankedIsLongest(g, search.heights, root);
    forall x | x in search.heights
      ensures x in g.nodes
    {
      assert g.RankedAt(search.heights, x);
    }
    assert search.heights.Keys <= g.nodes.Keys;
    if |search.heights| != |g.nodes| {
      ghost var x := LeftOver(search.heights.Keys, g.nodes.Keys);
      r := Some(Unrelated);
      return;
    }
    assert search.heights.Keys == g.nodes.Keys by { SameSizeSubset(search.heights.Keys, g.nodes.Keys); }
    r := None;
  }

  lemma LeftOver<T>(a: set<T>, b: set<T>) returns (x: T)
    requires a <= b && |a| != |b|
    ensures x in b && x !in a
  {
    assert a != b;
    x :| x in b && x !in a;
  }

  // ----- the verdict is a property of the parent sets -----

  ghost predicate SameParentSets(g: Graph, g': Graph) {
    g.nodes == g'.nodes && forall x, y :: y in g.Parents(x) <==> y in g'.Parents(x)
  }

  lemma {:induction false} SameChains(g: Graph, g': Graph, p: seq<Id>)
    requires SameParentSets(g, g')
    ensures g.Chain(p) <==> g'.Chain(p)
  {
    if |p| > 1 {
      SameChains(g, g', p[1..]);
      assert g.Step(p[0], p[1]) <==> g'.Step(p[0], p[1]);
    }
  }

  /** Reordering or repeating parents changes neither the verdict nor the defects present. */
  lemma ParentOrderIrrelevant(g: Graph, g': Graph, root: Id)
    requires SameParentSets(g, g')
    ensures g.Acceptable(root) <==> g'.Acceptable(root)
    ensures forall e :: g.Truthful(root, e) <==> g'.Truthful(root, e)
  {
    DefectsCarryOver(g, g', root);
    DefectsCarryOver(g', g, root);
  }

  lemma DefectsCarryOver(g: Graph, g': Graph, root: Id)
    requires SameParentSets(g, g')
    ensures forall x :: g.Reached(root, x) <==> g'.Reached(root, x)
    ensures g.HasMissing(root) ==> g'.HasMissing(root)
    ensures g.HasCycle(root) ==> g'.HasCycle(root)
    ensures g.TooDeep(root) ==> g'.TooDeep(root)
    ensures g.HasUnrelated(root) ==> g'.HasUnrelated(root)
  {
    forall x, y, p
      ensures g.ChainTo(x, p, y) <==> g'.ChainTo(x, p, y)
    {
      SameChains(g, g', p);
    }
    if g.TooDeep(root) {
      var p :| g.Chain(p) && p[0] == root && g.Layers(p) > MAX_RECURSIVE_DEPTH;
      SameChains(g, g', p);
      assert g'.Layers(p) == g.Layers(p);
    }
  }
}
