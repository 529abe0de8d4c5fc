/**
 The candidate proposer: each specification keeps its best eight candidates, the report
 keeps the best sixty-four of those, and everything left out is counted.
 Whether and how strongly two endpoints match is a function parameter.
 */
module CandidateProposer {
  import opened Outcomes
  import opened Ordering
  import opened StrictOrder

  type Id = string

  datatype Implementation = Implementation(id: Id, qualifiedName: string)

  /** Three for a qualified symbol, two for a unique simple one, one for shared words. */
  datatype Match = Match(strength: nat, shared: nat)

  datatype Candidate = Candidate(spec: Id, impl: Id, qualifiedName: string, strength: nat, shared: nat, rank: nat)

  const PER_SPECIFICATION: nat := 8
  const PER_REPORT: nat := 64

  // ----- the two orders -----

  predicate ByName(a: Candidate, b: Candidate) {
    Less(a.qualifiedName, b.qualifiedName) || (a.qualifiedName == b.qualifiedName && Less(a.impl, b.impl))
  }

  predicate LocalBefore(a: Candidate, b: Candidate) {
    || a.strength > b.strength
    || (a.strength == b.strength && (a.shared > b.shared || (a.shared == b.shared && ByName(a, b))))
  }

  predicate GlobalBefore(a: Candidate, b: Candidate) {
    || a.strength > b.strength
    || (a.strength == b.strength
        && (a.shared > b.shared
            || (a.shared == b.shared && (Less(a.spec, b.spec) || (a.spec == b.spec && ByName(a, b))))))
  }

  lemma ByNameStrict(a: Candidate, b: Candidate, c: Candidate)
    ensures a.impl != b.impl ==> ByName(a, b) || ByName(b, a)
    ensures !(ByName(a, b) && ByName(b, a))
    ensures ByName(a, b) && ByName(b, c) ==> ByName(a, c)
  {
    LessStrict(a.qualifiedName, b.qualifiedName, c.qualifiedName);
    LessStrict(a.impl, b.impl, c.impl);
  }

  /** One candidate per pair of endpoints. */
  ghost predicate PairsDiffer(s: seq<Candidate>) {
    forall a, b :: a in s && b in s && a.spec == b.spec && a.impl == b.impl ==> a == b
  }

  lemma LocalStrict(s: seq<Candidate>, spec: Id)
    requires PairsDiffer(s) && forall c :: c in s ==> c.spec == spec
    ensures Strict(LocalBefore, s)
  {
    forall a, b, c | a in s && b in s && c in s
      ensures a == b || LocalBefore(a, b) || LocalBefore(b, a)
      ensures !(LocalBefore(a, b) && LocalBefore(b, a))
      ensures LocalBefore(a, b) && LocalBefore(b, c) ==> LocalBefore(a, c)
    {
      ByNameStrict(a, b, c);
    }
  }

  lemma GlobalStrict(s: seq<Candidate>)
    requires PairsDiffer(s)
    ensures Strict(GlobalBefore, s)
  {
    forall a, b, c | a in s && b in s && c in s
      ensures a == b || GlobalBefore(a, b) || GlobalBefore(b, a)
      ensures !(GlobalBefore(a, b) && GlobalBefore(b, a))
      ensures GlobalBefore(a, b) && GlobalBefore(b, c) ==> GlobalBefore(a, c)
    {
      ByNameStrict(a, b, c);
      LessStrict(a.spec, b.spec, c.spec);
    }
  }

  // ----- one specification -----

  type Judge = (Id, Implementation) -> Option<Match>

  function ToCandidate(spec: Id, i: Implementation, m: Match): Candidate {
    Candidate(spec, i.id, i.qualifiedName, m.strength, m.shared, 0)
  }

  function Generated(spec: Id, impls: seq<Implementation>, judge: Judge): seq<Candidate> {
    if impls == [] then []
    else
      var front, last := impls[..|impls| - 1], impls[|impls| - 1];
      var m := judge(spec, last);
      Generated(spec, front, judge) + (if m.Some? then [ToCandidate(spec, last, m.value)] else [])
  }

  function ImplId(i: Implementation): string { i.id }

  lemma {:induction false} GeneratedFacts(spec: Id, impls: seq<Implementation>, judge: Judge)
    requires DistinctKeys(impls, ImplId)
    ensures var g := Generated(spec, impls, judge);
            && NoDuplicates(g) && PairsDiffer(g)
            && forall c :: c in g ==>
               c.spec == spec && c.rank == 0 && exists k :: 0 <= k < |impls| && impls[k].id == c.impl
  {
    if impls != [] {
      var front, last := impls[..|impls| - 1], impls[|impls| - 1];
      assert DistinctKeys(front, ImplId);
      GeneratedFacts(spec, front, judge);
      forall c | c in Generated(spec, front, judge)
        ensures c.impl != last.id && exists k :: 0 <= k < |impls| && impls[k].id == c.impl
      {
        var k :| 0 <= k < |front| && front[k].id == c.impl;
        assert ImplId(impls[k]) != ImplId(last) && impls[k].id == c.impl;
      }
      assert impls[|impls| - 1].id == last.id;
    }
  }

  function WithRanks(s: seq<Candidate>): (r: seq<Candidate>)
    ensures |r| == |s|
  {
    seq(|s|, i requires 0 <= i < |s| => s[i].(rank := i + 1))
  }

  function Ranked(spec: Id, impls: seq<Implementation>, judge: Judge): seq<Candidate> {
    WithRanks(Arranged(Generated(spec, impls, judge), LocalBefore))
  }

  function Least(a: nat, b: nat): nat {
    if a < b then a else b
  }

  function KeptOf(spec: Id, impls: seq<Implementation>, judge: Judge): seq<Candidate> {
    var r := Ranked(spec, impls, judge);
    r[..Least(|r|, PER_SPECIFICATION)]
  }

  function DroppedOf(spec: Id, impls: seq<Implementation>, judge: Judge): seq<Candidate> {
    var r := Ranked(spec, impls, judge);
    r[Least(|r|, PER_SPECIFICATION)..]
  }

  /** The ranked list is in local order, and a candidate's rank is its place. */
  lemma RankedFacts(spec: Id, impls: seq<Implementation>, judge: Judge)
    requires DistinctKeys(impls, ImplId)
    ensures var r := Ranked(spec, impls, judge);
            && |r| == |Generated(spec, impls, judge)| && Ordered(LocalBefore, r) && NoDuplicates(r)
            && (forall i :: 0 <= i < |r| ==> r[i].rank == i + 1 && r[i].spec == spec)
            && (forall i, j :: 0 <= i < |r| && 0 <= j < |r| && r[i].impl == r[j].impl ==> i == j)
  {
    var g := Generated(spec, impls, judge);
    GeneratedFacts(spec, impls, judge);
    LocalStrict(g, spec);
    ArrangedFacts(g, g, LocalBefore);
    var s, r := Arranged(g, LocalBefore), Ranked(spec, impls, judge);
    OrderedNoDuplicates(s, LocalBefore);
    forall i | 0 <= i < |s|
      ensures s[i] in g
    {
      assert s[i] in s;
    }
    forall i, j | 0 <= i < |r| && 0 <= j < |r| && r[i].impl == r[j].impl
      ensures i == j
    {
      assert s[i] == s[j];
    }
  }

  // ----- the whole cut -----

  function Pool(specs: seq<Id>, impls: seq<Implementation>, judge: Judge): seq<Candidate> {
    if specs == [] then []
    else Pool(specs[..|specs| - 1], impls, judge) + KeptOf(specs[|specs| - 1], impls, judge)
  }

  lemma {:induction false} PoolFacts(specs: seq<Id>, impls: seq<Implementation>, judge: Judge)
    requires DistinctKeys(impls, ImplId) && NoDuplicates(specs)
    ensures var pool := Pool(specs, impls, judge);
            && NoDuplicates(pool) && PairsDiffer(pool)
            && (forall c :: c in pool ==> c.spec in specs)
            && (forall c, x :: x in specs ==> (c in pool && c.spec == x <==> c in KeptOf(x, impls, judge)))
  {
    if specs != [] {
      var front, last := specs[..|specs| - 1], specs[|specs| - 1];
      PoolFacts(front, impls, judge);
      assert specs == front + [last] && last !in front;
      RankedFacts(last, impls, judge);
      var kept, r := KeptOf(last, impls, judge), Ranked(last, impls, judge);
      forall c | c in kept
        ensures c.spec == last
      {
        var i :| 0 <= i < |kept| && kept[i] == c;
        assert r[i] == c;
      }
      forall a, b | a in kept && b in kept && a.impl == b.impl
        ensures a == b
      {
        var i :| 0 <= i < |kept| && kept[i] == a;
        var j :| 0 <= j < |kept| && kept[j] == b;
        assert r[i] == a && r[j] == b;
      }
      forall x | x in front
        ensures forall c :: c in KeptOf(x, impls, judge) ==> c.spec == x
      {
        KeptIsOfSpec(x, impls, judge);
      }
    }
  }

  lemma KeptIsOfSpec(x: Id, impls: seq<Implementation>, judge: Judge)
    requires DistinctKeys(impls, ImplId)
    ensures forall c :: c in KeptOf(x, impls, judge) ==> c.spec == x
  {
    RankedFacts(x, impls, judge);
    var kept, r := KeptOf(x, impls, judge), Ranked(x, impls, judge);
    forall c | c in kept
      ensures c.spec == x
    {
      var i :| 0 <= i < |kept| && kept[i] == c;
      assert r[i] == c;
    }
  }

  function InGlobalOrder(specs: seq<Id>, impls: seq<Implementation>, judge: Judge): seq<Candidate> {
    Arranged(Pool(specs, impls, judge), GlobalBefore)
  }

  function Emitted(specs: seq<Id>, impls: seq<Implementation>, judge: Judge): seq<Candidate> {
    var all := InGlobalOrder(specs, impls, judge);
    all[..Least(|all|, PER_REPORT)]
  }

  function CutOff(specs: seq<Id>, impls: seq<Implementation>, judge: Judge): seq<Candidate> {
    var all := InGlobalOrder(specs, impls, judge);
    all[Least(|all|, PER_REPORT)..]
  }

  lemma GlobalFacts(specs: seq<Id>, impls: seq<Implementation>, judge: Judge)
    requires DistinctKeys(impls, ImplId) && NoDuplicates(specs)
    ensures var all, pool := InGlobalOrder(specs, impls, judge), Pool(specs, impls, judge);
            && Ordered(GlobalBefore, all) && NoDuplicates(all) && |all| == |pool|
            && (forall c :: c in all <==> c in pool)
            && all == Emitted(specs, impls, judge) + CutOff(specs, impls, judge)
  {
    var pool := Pool(specs, impls, judge);
    PoolFacts(specs, impls, judge);
    GlobalStrict(pool);
    ArrangedFacts(pool, pool, GlobalBefore);
    OrderedNoDuplicates(InGlobalOrder(specs, impls, judge), GlobalBefore);
  }

  /** Kept: the best eight of a specification, none of which comes after one that was dropped. */
  lemma BestEight(spec: Id, impls: seq<Implementation>, judge: Judge)
    requires DistinctKeys(impls, ImplId)
    ensures |KeptOf(spec, impls, judge)| == Least(|Generated(spec, impls, judge)|, PER_SPECIFICATION)
    ensures forall a, b :: a in KeptOf(spec, impls, judge) && b in DroppedOf(spec, impls, judge) ==> LocalBefore(a, b)
  {
    RankedFacts(spec, impls, judge);
    SplitOrdered(Ranked(spec, impls, judge), LocalBefore, |KeptOf(spec, impls, judge)|);
  }

  lemma SplitOrdered(s: seq<Candidate>, before: (Candidate, Candidate) -> bool, k: nat)
    requires Ordered(before, s) && k <= |s|
    ensures forall a, b :: a in s[..k] && b in s[k..] ==> before(a, b)
  {
    forall a, b | a in s[..k] && b in s[k..]
      ensures before(a, b)
    {
      var i :| 0 <= i < k && s[i] == a;
      var j :| k <= j < |s| && s[j] == b;
    }
  }

  /** Emitted: the best sixty-four of everything kept. */
  lemma BestSixtyFour(specs: seq<Id>, impls: seq<Implementation>, judge: Judge)
    requires DistinctKeys(impls, ImplId) && NoDuplicates(specs)
    ensures var pool, out := Pool(specs, impls, judge), Emitted(specs, impls, judge);
            && |out| == Least(|pool|, PER_REPORT) && NoDuplicates(out) && (forall c :: c in out ==> c in pool)
            && (forall a, b :: a in out && b in pool && b !in out ==> GlobalBefore(a, b))
  {
    GlobalFacts(specs, impls, judge);
    var all, out := InGlobalOrder(specs, impls, judge), Emitted(specs, impls, judge);
    SplitOrdered(all, GlobalBefore, |out|);
  }

  /** Restricted to one specification the global order is the local one. */
  lemma OrdersAgree(a: Candidate, b: Candidate)
    requires a.spec == b.spec
    ensures GlobalBefore(a, b) <==> LocalBefore(a, b)
  {
    LeqTotal(a.spec, b.spec);
  }

  /** If a candidate is emitted, so is every better one of the same specification. */
  lemma BetterOnesToo(specs: seq<Id>, impls: seq<Implementation>, judge: Judge, spec: Id, i: nat, j: nat)
    requires DistinctKeys(impls, ImplId) && NoDuplicates(specs) && spec in specs
    requires i < j < |Ranked(spec, impls, judge)| && Ranked(spec, impls, judge)[j] in Emitted(specs, impls, judge)
    ensures Ranked(spec, impls, judge)[i] in Emitted(specs, impls, judge)
  {
    var r, out := Ranked(spec, impls, judge), Emitted(specs, impls, judge);
    RankedFacts(spec, impls, judge);
    PoolFacts(specs, impls, judge);
    BestSixtyFour(specs, impls, judge);
    assert r[j] in Pool(specs, impls, judge) && r[j].spec == spec;
    var kept := KeptOf(spec, impls, judge);
    var k :| 0 <= k < |kept| && kept[k] == r[j];
    assert r[k] == r[j] && k == j;
    assert kept[i] == r[i] && r[i] in kept;
    assert r[i] in Pool(specs, impls, judge);
    if r[i] !in out {
      OrdersAgree(r[j], r[i]);
      assert LocalBefore(r[i], r[j]) && LocalBefore(r[j], r[i]);
      ByNameStrict(r[i], r[j], r[i]);
      assert false;
    }
  }

  function EmittedRanks(specs: seq<Id>, impls: seq<Implementation>, judge: Judge, spec: Id): set<nat> {
    set c | c in Emitted(specs, impls, judge) && c.spec == spec :: c.rank
  }

  /** An emitted candidate sits in its specification's ranking at its rank. */
  lemma EmittedAtRank(specs: seq<Id>, impls: seq<Implementation>, judge: Judge, c: Candidate)
    requires DistinctKeys(impls, ImplId) && NoDuplicates(specs) && c.spec in specs && c in Emitted(specs, impls, judge)
    ensures 1 <= c.rank <= |Ranked(c.spec, impls, judge)| && Ranked(c.spec, impls, judge)[c.rank - 1] == c
  {
    BestSixtyFour(specs, impls, judge);
    PoolFacts(specs, impls, judge);
    RankedFacts(c.spec, impls, judge);
    var kept := KeptOf(c.spec, impls, judge);
    assert c in Pool(specs, impls, judge);
    var i :| 0 <= i < |kept| && kept[i] == c;
    assert Ranked(c.spec, impls, judge)[i] == c;
  }

  /** The ranks emitted for a specification are exactly 1 to k. */
  lemma RanksAreAPrefix(specs: seq<Id>, impls: seq<Implementation>, judge: Judge, spec: Id) returns (k: nat)
    requires DistinctKeys(impls, ImplId) && NoDuplicates(specs) && spec in specs
    ensures k <= PER_SPECIFICATION
    ensures forall x: nat :: x in EmittedRanks(specs, impls, judge, spec) <==> 1 <= x <= k
  {
    var r, out := Ranked(spec, impls, judge), Emitted(specs, impls, judge);
    RankedFacts(spec, impls, judge);
    k := LongestEmitted(specs, impls, judge, spec);
    forall c | c in out && c.spec == spec
      ensures 1 <= c.rank <= k
    {
      EmittedAtRank(specs, impls, judge, c);
      assert r[c.rank - 1] in out;
    }
    forall x: nat | 1 <= x <= k
      ensures x in EmittedRanks(specs, impls, judge, spec)
    {
      assert r[x - 1] in out && r[x - 1].rank == x && r[x - 1].spec == spec;
    }
  }

  /** How many places of a specification's ranking are emitted. */
  lemma LongestEmitted(specs: seq<Id>, impls: seq<Implementation>, judge: Judge, spec: Id) returns (k: nat)
    requires DistinctKeys(impls, ImplId) && NoDuplicates(specs) && spec in specs
    ensures var r := Ranked(spec, impls, judge);
            && k <= |r| && k <= PER_SPECIFICATION
            && forall i :: 0 <= i < |r| ==> (r[i] in Emitted(specs, impls, judge) <==> i < k)
  {
    var r := Ranked(spec, impls, judge);
    RankedFacts(spec, impls, judge);
    BestSixtyFour(specs, impls, judge);
    PoolFacts(specs, impls, judge);
    k := 0;
    while k < |r| && r[k] in Emitted(specs, impls, judge)
      invariant k <= |r| && forall i :: 0 <= i < k ==> r[i] in Emitted(specs, impls, judge)
      decreases |r| - k
    {
      k := k + 1;
    }
    forall i | k <= i < |r|
      ensures r[i] !in Emitted(specs, impls, judge)
    {
      if r[i] in Emitted(specs, impls, judge) && i > k {
        BetterOnesToo(specs, impls, judge, spec, k, i);
      }
    }
    if k > 0 {
      assert r[k - 1] in KeptOf(spec, impls, judge);
      var kept := KeptOf(spec, impls, judge);
      var i :| 0 <= i < |kept| && kept[i] == r[k - 1];
      assert r[i] == r[k - 1] && i == k - 1;
    }
  }

  // ----- accounting -----

  function OfSpec(s: seq<Candidate>, spec: Id): seq<Candidate> {
    if s == [] then []
    else OfSpec(s[..|s| - 1], spec) + (if s[|s| - 1].spec == spec then [s[|s| - 1]] else [])
  }

  /** What a specification generated and the report does not emit, in the order it is set aside. */
  function OmittedOf(specs: seq<Id>, impls: seq<Implementation>, judge: Judge, spec: Id): seq<Candidate> {
    DroppedOf(spec, impls, judge) + OfSpec(CutOff(specs, impls, judge), spec)
  }

  lemma {:induction false} OfSpecJoin(a: seq<Candidate>, b: seq<Candidate>, spec: Id)
    ensures OfSpec(a + b, spec) == OfSpec(a, spec) + OfSpec(b, spec)
  {
    if b == [] {
      assert a + b == a;
    } else {
      OfSpecJoin(a, b[..|b| - 1], spec);
      assert (a + b)[..|a + b| - 1] == a + b[..|b| - 1];
    }
  }

  lemma {:induction false} OfSpecMembers(s: seq<Candidate>, spec: Id)
    requires NoDuplicates(s)
    ensures NoDuplicates(OfSpec(s, spec))
    ensures forall c :: c in OfSpec(s, spec) <==> c in s && c.spec == spec
  {
    if s != [] {
      var front, last := s[..|s| - 1], s[|s| - 1];
      assert s == front + [last] && NoDuplicates(front) && last !in front;
      OfSpecMembers(front, spec);
    }
  }

  /** Every candidate of a specification is emitted or omitted, and none is both or lost. */
  lemma GeneratedIsEmittedPlusOmitted(specs: seq<Id>, impls: seq<Implementation>, judge: Judge, spec: Id)
    requires DistinctKeys(impls, ImplId) && NoDuplicates(specs) && spec in specs
    ensures |Generated(spec, impls, judge)| ==
            |OfSpec(Emitted(specs, impls, judge), spec)| + |OmittedOf(specs, impls, judge, spec)|
  {
    var all, kept := InGlobalOrder(specs, impls, judge), KeptOf(spec, impls, judge);
    GlobalFacts(specs, impls, judge);
    PoolFacts(specs, impls, judge);
    RankedFacts(spec, impls, judge);
    OfSpecMembers(all, spec);
    OfSpecJoin(Emitted(specs, impls, judge), CutOff(specs, impls, judge), spec);
    assert NoDuplicates(kept);
    SameMembersSameSize(OfSpec(all, spec), kept);
  }

  lemma SameMembersSameSize(s: seq<Candidate>, t: seq<Candidate>)
    requires NoDuplicates(s) && NoDuplicates(t) && forall c :: c in s <==> c in t
    ensures |s| == |t|
  {
    NoDuplicatesSize(s);
    NoDuplicatesSize(t);
    assert Elements(s) == Elements(t);
  }
}
