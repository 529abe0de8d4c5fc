/**
 The candidate report: who owns each symbol of the cut, which mentions are ambiguous, and
 an exact account of what the report leaves out. The owner tables are hash maps; nothing
 in the report depends on the order in which they are iterated.
 */
module CandidateReport {
  import opened Outcomes
  import opened Ordering
  import opened StrictOrder
  import opened CandidateProposer

  datatype GapKind = AmbiguousQualifiedName | AmbiguousSymbol | NoEvidence

  datatype Gap = Gap(kind: GapKind, spec: Id, anchor: string, owners: seq<Id>)

  datatype Truncation = Truncation(spec: Id, count: nat, listed: seq<Id>, unlisted: nat)

  datatype Report = Report(candidates: seq<Candidate>, gaps: seq<Gap>, omittedGaps: nat, truncations: seq<Truncation>)

  const PAIR_LIMIT: nat := 4096
  const GAP_LIMIT: nat := 256
  const OMITTED_ID_LIMIT: nat := 32
  const SHARED_TERMS_NEEDED: nat := 2

  // ----- reading the texts -----

  /** What scanning names and claims yields; the scanners themselves are not modelled. */
  datatype Texts = Texts(
    supported: string -> bool, lastPart: string -> string,
    mentioned: (Id, string) -> bool, standalone: (Id, string) -> bool, shared: (Id, Id) -> nat)
  {
    predicate MentionsName(spec: Id, name: string) {
      supported(name) && mentioned(spec, name)
    }

    predicate MentionsSymbol(spec: Id, symbol: string) {
      symbol != "" && standalone(spec, symbol)
    }
  }

  // ----- owners -----

  type Anchor = Implementation -> Option<string>

  function NameAnchor(texts: Texts): Anchor {
    (i: Implementation) => if texts.supported(i.qualifiedName) then Some(i.qualifiedName) else None
  }

  function SymbolAnchor(texts: Texts): Anchor {
    (i: Implementation) =>
      if texts.supported(i.qualifiedName) && texts.lastPart(i.qualifiedName) != ""
      then Some(texts.lastPart(i.qualifiedName))
      else None
  }

  type OwnerTable = map<string, seq<Id>>

  function Owned(owners: OwnerTable, x: string): seq<Id> {
    if x in owners then owners[x] else []
  }

  /** The table as it is filled, each entry in cut order. */
  function OwnersFound(impls: seq<Implementation>, anchor: Anchor): OwnerTable {
    if impls == [] then map[]
    else
      var owners, last := OwnersFound(impls[..|impls| - 1], anchor), impls[|impls| - 1];
      if anchor(last).None? then owners
      else owners[anchor(last).value := Owned(owners, anchor(last).value) + [last.id]]
  }

  predicate Owns(i: Implementation, anchor: Anchor, x: string, id: Id) {
    anchor(i) == Some(x) && i.id == id
  }

  ghost predicate Owner(impls: seq<Implementation>, anchor: Anchor, x: string, id: Id) {
    exists i :: i in impls && Owns(i, anchor, x, id)
  }

  lemma OwnerStep(impls: seq<Implementation>, last: Implementation, anchor: Anchor, x: string, id: Id)
    ensures Owner(impls + [last], anchor, x, id) <==> Owner(impls, anchor, x, id) || Owns(last, anchor, x, id)
  {
    if Owns(last, anchor, x, id) {
      assert last in impls + [last];
    }
    if i :| i in impls && Owns(i, anchor, x, id) {
      assert i in impls + [last];
    }
  }

  /** The owners of a symbol are the implementations it is the anchor of; no entry is empty. */
  lemma {:induction false} OwnersFoundFacts(impls: seq<Implementation>, anchor: Anchor, x: string)
    ensures forall id :: id in Owned(OwnersFound(impls, anchor), x) <==> Owner(impls, anchor, x, id)
    ensures x in OwnersFound(impls, anchor) ==> OwnersFound(impls, anchor)[x] != []
    ensures DistinctKeys(impls, ImplId) ==> NoDuplicates(Owned(OwnersFound(impls, anchor), x))
  {
    if impls != [] {
      var front, last := impls[..|impls| - 1], impls[|impls| - 1];
      OwnersFoundFacts(front, anchor, x);
      assert impls == front + [last];
      var owned := Owned(OwnersFound(front, anchor), x);
      forall id
        ensures id in Owned(OwnersFound(impls, anchor), x) <==> Owner(impls, anchor, x, id)
      {
        OwnerStep(front, last, anchor, x, id);
      }
      if DistinctKeys(impls, ImplId) {
        assert DistinctKeys(front, ImplId);
        forall i | i in front
          ensures i.id != last.id
        {
          var k :| 0 <= k < |front| && front[k] == i;
          assert ImplId(impls[k]) != ImplId(impls[|impls| - 1]);
        }
        assert last.id !in owned;
        AppendDistinct(owned, last.id);
      }
    }
  }

  function SortEntries(owners: OwnerTable): OwnerTable {
    map x | x in owners :: SortBy(owners[x], SelfKey)
  }

  /** Every symbol with the ids of its implementations in byte order. */
  function Owners(impls: seq<Implementation>, anchor: Anchor): OwnerTable {
    SortEntries(OwnersFound(impls, anchor))
  }

  /** A symbol's entry lists its implementations, each once. */
  lemma OwnersFacts(impls: seq<Implementation>, anchor: Anchor, x: string)
    requires DistinctKeys(impls, ImplId)
    ensures x in Owners(impls, anchor) <==> exists i :: i in impls && anchor(i) == Some(x)
    ensures x in Owners(impls, anchor) ==>
              var ids := Owners(impls, anchor)[x];
              && SortedBy(ids, SelfKey) && NoDuplicates(ids)
              && forall id :: id in ids <==> Owner(impls, anchor, x, id)
  {
    OwnersFoundFacts(impls, anchor, x);
    forall i | i in impls && anchor(i) == Some(x)
      ensures x in Owners(impls, anchor)
    {
      assert Owns(i, anchor, x, i.id) && i.id in Owned(OwnersFound(impls, anchor), x);
    }
    if x in Owners(impls, anchor) {
      var found := OwnersFound(impls, anchor)[x];
      SortedOnce(found);
      SortFacts(found, SelfKey);
      assert found[0] in Owned(OwnersFound(impls, anchor), x);
    }
  }

  /** Fills an owner table in cut order. */
  method CollectOwners(impls: seq<Implementation>, anchor: Anchor) returns (owners: OwnerTable)
    ensures owners == OwnersFound(impls, anchor)
  {
    owners := map[];
    for i := 0 to |impls|
      invariant owners == OwnersFound(impls[..i], anchor)
    {
      assert impls[..i + 1][..i] == impls[..i];
      var symbol := anchor(impls[i]);
      if symbol.None? {
        continue;
      }
      owners := owners[symbol.value := Owned(owners, symbol.value) + [impls[i].id]];
    }
    assert impls[..|impls|] == impls;
  }

  /** Sorts every entry, in whatever order the table is iterated. */
  method BuildOwners(impls: seq<Implementation>, anchor: Anchor) returns (owners: OwnerTable)
    ensures owners == Owners(impls, anchor)
  {
    owners := CollectOwners(impls, anchor);
    ghost var found := owners;
    var rest := owners.Keys;
    while rest != {}
      invariant rest <= owners.Keys == found.Keys
      invariant forall x :: x in found ==> owners[x] == if x in rest then found[x] else SortBy(found[x], SelfKey)
      decreases rest
    {
      var x :| x in rest;
      owners := owners[x := SortBy(owners[x], SelfKey)];
      rest := rest - {x};
    }
  }

  // ----- how well an implementation matches -----

  function JudgeOf(texts: Texts, symbols: OwnerTable): Judge {
    (spec: Id, i: Implementation) =>
      var shared, symbol := texts.shared(spec, i.id), texts.lastPart(i.qualifiedName);
      if texts.MentionsName(spec, i.qualifiedName) then Some(Match(3, shared))
      else if texts.MentionsSymbol(spec, symbol) && symbol in symbols && |symbols[symbol]| == 1
      then Some(Match(2, shared))
      else if shared >= SHARED_TERMS_NEEDED then Some(Match(1, shared))
      else None
  }

  // ----- ambiguity gaps of one specification -----

  function GapAnchor(g: Gap): string { g.anchor }

  predicate IsAmbiguous(owners: OwnerTable, test: string -> bool, x: string) {
    x in owners && |owners[x]| >= 2 && test(x)
  }

  function GapAt(kind: GapKind, spec: Id, owners: OwnerTable, x: string): Gap {
    Gap(kind, spec, x, if x in owners then owners[x] else [])
  }

  /** The ambiguous symbols met when the table is iterated in this order. */
  function GapsAlong(order: seq<string>, kind: GapKind, spec: Id, owners: OwnerTable, test: string -> bool): seq<Gap> {
    if order == [] then []
    else
      var front, last := order[..|order| - 1], order[|order| - 1];
      GapsAlong(front, kind, spec, owners, test)
      + (if IsAmbiguous(owners, test, last) then [GapAt(kind, spec, owners, last)] else [])
  }

  ghost predicate Visits(order: seq<string>, keys: set<string>) {
    NoDuplicates(order) && Elements(order) == keys
  }

  lemma {:induction false} AlongFacts(
    order: seq<string>, kind: GapKind, spec: Id, owners: OwnerTable, test: string -> bool)
    requires NoDuplicates(order)
    ensures var gaps := GapsAlong(order, kind, spec, owners, test);
            && DistinctKeys(gaps, GapAnchor)
            && (forall g :: g in gaps <==>
                g.anchor in order && IsAmbiguous(owners, test, g.anchor) && g == GapAt(kind, spec, owners, g.anchor))
  {
    if order != [] {
      var front, last := order[..|order| - 1], order[|order| - 1];
      assert order == front + [last] && last !in front && NoDuplicates(front);
      AlongFacts(front, kind, spec, owners, test);
      var before := GapsAlong(front, kind, spec, owners, test);
      forall i | 0 <= i < |before|
        ensures GapAnchor(before[i]) != last
      {
        assert before[i] in before;
      }
    }
  }

  function SortedGaps(order: seq<string>, kind: GapKind, spec: Id, owners: OwnerTable, test: string -> bool): seq<Gap> {
    SortBy(GapsAlong(order, kind, spec, owners, test), GapAnchor)
  }

  /** Sorted by symbol, the gaps do not depend on the order of iteration. */
  lemma AnyOrderSameGaps(
    order: seq<string>, order': seq<string>, kind: GapKind, spec: Id, owners: OwnerTable, test: string -> bool)
    requires NoDuplicates(order) && NoDuplicates(order') && Elements(order) == Elements(order')
    ensures SortedGaps(order, kind, spec, owners, test) == SortedGaps(order', kind, spec, owners, test)
  {
    var s, t := GapsAlong(order, kind, spec, owners, test), GapsAlong(order', kind, spec, owners, test);
    AlongFacts(order, kind, spec, owners, test);
    AlongFacts(order', kind, spec, owners, test);
    assert forall x :: x in order <==> x in Elements(order);
    assert forall x :: x in order' <==> x in Elements(order');
    SortFacts(s, GapAnchor);
    SortFacts(t, GapAnchor);
    DistinctKeysPermuted(s, SortBy(s, GapAnchor), GapAnchor);
    DistinctKeysPermuted(t, SortBy(t, GapAnchor), GapAnchor);
    SortedUnique(SortBy(s, GapAnchor), SortBy(t, GapAnchor), GapAnchor);
  }

  /** The keys of a table in byte order. */
  ghost function Ascending(keys: set<string>): (order: seq<string>)
    ensures Visits(order, keys) && SortedBy(order, SelfKey)
  {
    if keys == {} then []
    else
      var x :| x in keys;
      InsertDistinct(x, Ascending(keys - {x}));
      Insert(x, Ascending(keys - {x}), SelfKey)
  }

  /** Ambiguous means at least two owners and a mention; gaps come once per symbol, in byte order. */
  lemma AmbiguousFacts(order: seq<string>, kind: GapKind, spec: Id, owners: OwnerTable, test: string -> bool)
    requires Visits(order, owners.Keys)
    ensures var gaps := SortedGaps(order, kind, spec, owners, test);
            && DistinctKeys(gaps, GapAnchor) && SortedBy(gaps, GapAnchor)
            && (forall g :: g in gaps <==>
                IsAmbiguous(owners, test, g.anchor) && g == GapAt(kind, spec, owners, g.anchor))
  {
    var gaps := GapsAlong(order, kind, spec, owners, test);
    AlongFacts(order, kind, spec, owners, test);
    SortFacts(gaps, GapAnchor);
    DistinctKeysPermuted(gaps, SortBy(gaps, GapAnchor), GapAnchor);
    assert forall x :: x in order <==> x in Elements(order);
  }

  /** Walks the table in an arbitrary order and sorts what it found. */
  method AmbiguousGaps(kind: GapKind, spec: Id, owners: OwnerTable, test: string -> bool) returns (gaps: seq<Gap>)
    ensures forall order :: Visits(order, owners.Keys) ==> gaps == SortedGaps(order, kind, spec, owners, test)
  {
    gaps := [];
    ghost var visited: seq<string> := [];
    var rest := owners.Keys;
    while rest != {}
      invariant rest <= owners.Keys && NoDuplicates(visited) && Elements(visited) == owners.Keys - rest
      invariant gaps == GapsAlong(visited, kind, spec, owners, test)
      decreases rest
    {
      var x :| x in rest;
      assert x !in Elements(visited);
      AppendDistinct(visited, x);
      ElementsAppend(visited, x);
      assert (visited + [x])[..|visited|] == visited;
      visited, rest := visited + [x], rest - {x};
      if |owners[x]| < 2 || !test(x) {
        continue;
      }
      gaps := gaps + [Gap(kind, spec, x, owners[x])];
    }
    gaps := SortBy(gaps, GapAnchor);
    forall order | Visits(order, owners.Keys)
      ensures gaps == SortedGaps(order, kind, spec, owners, test)
    {
      AnyOrderSameGaps(visited, order, kind, spec, owners, test);
    }
  }

  // ----- all gaps -----

  type Ambiguities = Id -> seq<Gap>

  function GapsOf(spec: Id, impls: seq<Implementation>, judge: Judge, ambiguous: Ambiguities): seq<Gap> {
    ambiguous(spec) + (if Generated(spec, impls, judge) == [] then [Gap(NoEvidence, spec, "", [])] else [])
  }

  function Found(specs: seq<Id>, impls: seq<Implementation>, judge: Judge, ambiguous: Ambiguities): seq<Gap> {
    if specs == [] then []
    else Found(specs[..|specs| - 1], impls, judge, ambiguous) + GapsOf(specs[|specs| - 1], impls, judge, ambiguous)
  }

  function FirstGaps(found: seq<Gap>): seq<Gap> {
    found[..Least(|found|, GAP_LIMIT)]
  }

  method AppendGap(gaps: seq<Gap>, omitted: nat, ghost found: seq<Gap>, gap: Gap)
    returns (gaps': seq<Gap>, omitted': nat)
    requires gaps == FirstGaps(found) && omitted == |found| - |gaps|
    ensures gaps' == FirstGaps(found + [gap]) && omitted' == |found + [gap]| - |gaps'|
  {
    if |gaps| == GAP_LIMIT {
      assert (found + [gap])[..GAP_LIMIT] == found[..GAP_LIMIT];
      return gaps, omitted + 1;
    }
    assert found + [gap] == gaps + [gap];
    return gaps + [gap], omitted;
  }

  method AppendGaps(gaps: seq<Gap>, omitted: nat, ghost found: seq<Gap>, more: seq<Gap>)
    returns (gaps': seq<Gap>, omitted': nat)
    requires gaps == FirstGaps(found) && omitted == |found| - |gaps|
    ensures gaps' == FirstGaps(found + more) && omitted' == |found + more| - |gaps'|
  {
    gaps', omitted' := gaps, omitted;
    assert found + more[..0] == found;
    for i := 0 to |more|
      invariant gaps' == FirstGaps(found + more[..i]) && omitted' == |found + more[..i]| - |gaps'|
    {
      assert found + more[..i + 1] == found + more[..i] + [more[i]];
      gaps', omitted' := AppendGap(gaps', omitted', found + more[..i], more[i]);
    }
    assert more[..|more|] == more;
  }

  predicate NeverJudged(spec: Id, impls: seq<Implementation>, judge: Judge) {
    forall i :: i in impls ==> judge(spec, i).None?
  }

  lemma {:induction false} GeneratedNone(spec: Id, impls: seq<Implementation>, judge: Judge)
    ensures Generated(spec, impls, judge) == [] <==> NeverJudged(spec, impls, judge)
  {
    if impls != [] {
      var front, last := impls[..|impls| - 1], impls[|impls| - 1];
      GeneratedNone(spec, front, judge);
      assert impls == front + [last] && last in impls;
    }
  }

  /** The same ambiguities give the same gaps. */
  lemma {:induction false} FoundSame(
    specs: seq<Id>, impls: seq<Implementation>, judge: Judge, ambiguous: Ambiguities, ambiguous': Ambiguities)
    requires forall x :: x in specs ==> ambiguous(x) == ambiguous'(x)
    ensures Found(specs, impls, judge, ambiguous) == Found(specs, impls, judge, ambiguous')
  {
    if specs != [] {
      assert specs[|specs| - 1] in specs;
      FoundSame(specs[..|specs| - 1], impls, judge, ambiguous, ambiguous');
    }
  }

  const AMBIGUOUS_PREFIX := "ambiguous_"

  function KindName(kind: GapKind): string {
    match kind
    case AmbiguousQualifiedName => AMBIGUOUS_PREFIX + "qualified_symbol_anchor"
    case AmbiguousSymbol => AMBIGUOUS_PREFIX + "simple_symbol_anchor"
    case NoEvidence => "no_bounded_evidence_path"
  }

  /** By specification, then kind, then anchor. */
  predicate GapBefore(a: Gap, b: Gap) {
    || Less(a.spec, b.spec)
    || (a.spec == b.spec
        && (Less(KindName(a.kind), KindName(b.kind))
            || (KindName(a.kind) == KindName(b.kind) && Less(a.anchor, b.anchor))))
  }

  lemma KindsOrdered()
    ensures Less(KindName(AmbiguousQualifiedName), KindName(AmbiguousSymbol))
    ensures Less(KindName(AmbiguousSymbol), KindName(NoEvidence))
    ensures Less(KindName(AmbiguousQualifiedName), KindName(NoEvidence))
  {
    LeqPrefixed(AMBIGUOUS_PREFIX, "qualified_symbol_anchor", "simple_symbol_anchor");
    assert KindName(AmbiguousQualifiedName)[10] == 'q' && KindName(AmbiguousSymbol)[10] == 's';
    assert KindName(AmbiguousQualifiedName)[0] == 'a' && KindName(AmbiguousSymbol)[0] == 'a';
  }

  function GapTriple(g: Gap): (Id, GapKind, string) {
    (g.spec, g.kind, g.anchor)
  }

  /** In report order no two gaps share specification, kind and anchor. */
  lemma OrderedGapsDistinct(s: seq<Gap>)
    requires Ordered(GapBefore, s)
    ensures DistinctKeys(s, GapTriple)
  {
    forall i, j | 0 <= i < j < |s|
      ensures GapTriple(s[i]) != GapTriple(s[j])
    {
      assert GapBefore(s[i], s[j]);
    }
  }

  /** The order in which each table happens to be iterated. */
  datatype Orders = Orders(names: Id -> seq<string>, symbols: Id -> seq<string>, omitted: seq<Id>)

  function NameTest(texts: Texts, spec: Id): string -> bool {
    (x: string) => texts.MentionsName(spec, x)
  }

  function SymbolTest(texts: Texts, spec: Id): string -> bool {
    (x: string) => texts.MentionsSymbol(spec, x)
  }

  function AmbiguousAlong(texts: Texts, names: OwnerTable, symbols: OwnerTable, o: Orders): Ambiguities {
    (spec: Id) =>
      SortedGaps(o.names(spec), AmbiguousQualifiedName, spec, names, NameTest(texts, spec))
      + SortedGaps(o.symbols(spec), AmbiguousSymbol, spec, symbols, SymbolTest(texts, spec))
  }

  ghost predicate VisitsTables(o: Orders, names: OwnerTable, symbols: OwnerTable, spec: Id) {
    Visits(o.names(spec), names.Keys) && Visits(o.symbols(spec), symbols.Keys)
  }

  lemma OfOneSpec(
    texts: Texts, names: OwnerTable, symbols: OwnerTable, o: Orders, spec: Id, impls: seq<Implementation>, judge: Judge)
    requires VisitsTables(o, names, symbols, spec)
    ensures var gaps := GapsOf(spec, impls, judge, AmbiguousAlong(texts, names, symbols, o));
            Ordered(GapBefore, gaps) && forall g :: g in gaps ==> g.spec == spec
  {
    KindsOrdered();
    AmbiguousFacts(o.names(spec), AmbiguousQualifiedName, spec, names, NameTest(texts, spec));
    AmbiguousFacts(o.symbols(spec), AmbiguousSymbol, spec, symbols, SymbolTest(texts, spec));
    var a := SortedGaps(o.names(spec), AmbiguousQualifiedName, spec, names, NameTest(texts, spec));
    var b := SortedGaps(o.symbols(spec), AmbiguousSymbol, spec, symbols, SymbolTest(texts, spec));
    OneKindOrdered(a, AmbiguousQualifiedName, spec);
    OneKindOrdered(b, AmbiguousSymbol, spec);
    JoinOrdered(a, b);
    if Generated(spec, impls, judge) == [] {
      JoinOrdered(a + b, [Gap(NoEvidence, spec, "", [])]);
    } else {
      assert a + b + [] == a + b;
    }
  }

  lemma OneKindOrdered(s: seq<Gap>, kind: GapKind, spec: Id)
    requires DistinctKeys(s, GapAnchor) && SortedBy(s, GapAnchor)
             && forall g :: g in s ==> g.kind == kind && g.spec == spec
    ensures Ordered(GapBefore, s)
  {
    forall i, j | 0 <= i < j < |s|
      ensures GapBefore(s[i], s[j])
    {
      assert s[i] in s && s[j] in s && GapAnchor(s[i]) != GapAnchor(s[j]) && Leq(GapAnchor(s[i]), GapAnchor(s[j]));
    }
  }

  lemma JoinOrdered(s: seq<Gap>, t: seq<Gap>)
    requires Ordered(GapBefore, s) && Ordered(GapBefore, t) && forall a, b :: a in s && b in t ==> GapBefore(a, b)
    ensures Ordered(GapBefore, s + t)
  {
    var r := s + t;
    forall i, j | 0 <= i < j < |r|
      ensures GapBefore(r[i], r[j])
    {
      if i < |s| <= j {
        assert r[i] in s && r[j] in t;
      }
    }
  }

  lemma AllLess(ids: seq<Id>, front: seq<Id>)
    requires SortedBy(ids, SelfKey) && NoDuplicates(ids) && ids != [] && front == ids[..|ids| - 1]
    ensures forall x :: x in front ==> Less(x, ids[|ids| - 1])
  {
    forall x | x in front
      ensures Less(x, ids[|ids| - 1])
    {
      var k :| 0 <= k < |front| && front[k] == x;
      assert ids[k] != ids[|ids| - 1] && Leq(SelfKey(ids[k]), SelfKey(ids[|ids| - 1]));
    }
  }

  /** In a sorted cut the gaps are found in report order. */
  lemma {:induction false} FoundInOrder(
    texts: Texts, names: OwnerTable, symbols: OwnerTable, o: Orders, specs: seq<Id>, impls: seq<Implementation>,
    judge: Judge)
    requires SortedBy(specs, SelfKey) && NoDuplicates(specs)
             && forall x :: x in specs ==> VisitsTables(o, names, symbols, x)
    ensures var found := Found(specs, impls, judge, AmbiguousAlong(texts, names, symbols, o));
            Ordered(GapBefore, found) && forall g :: g in found ==> g.spec in specs
  {
    if specs != [] {
      var front, last := specs[..|specs| - 1], specs[|specs| - 1];
      var ambiguous := AmbiguousAlong(texts, names, symbols, o);
      assert specs == front + [last] && last in specs;
      FoundInOrder(texts, names, symbols, o, front, impls, judge);
      OfOneSpec(texts, names, symbols, o, last, impls, judge);
      AllLess(specs, front);
      JoinOrdered(Found(front, impls, judge, ambiguous), GapsOf(last, impls, judge, ambiguous));
    }
  }

  /** Why a gap is reported. */
  ghost predicate Reported(
    texts: Texts, names: OwnerTable, symbols: OwnerTable, impls: seq<Implementation>, judge: Judge, g: Gap)
  {
    match g.kind
    case AmbiguousQualifiedName =>
      g.anchor in names && |names[g.anchor]| >= 2 && texts.MentionsName(g.spec, g.anchor) && g.owners == names[g.anchor]
    case AmbiguousSymbol =>
      g.anchor in symbols && |symbols[g.anchor]| >= 2 && texts.MentionsSymbol(g.spec, g.anchor)
      && g.owners == symbols[g.anchor]
    case NoEvidence => g.anchor == "" && g.owners == [] && NeverJudged(g.spec, impls, judge)
  }

  lemma GapOfSpec(
    texts: Texts, names: OwnerTable, symbols: OwnerTable, o: Orders, spec: Id, impls: seq<Implementation>,
    judge: Judge, g: Gap)
    requires VisitsTables(o, names, symbols, spec)
    ensures g in GapsOf(spec, impls, judge, AmbiguousAlong(texts, names, symbols, o)) <==>
            g.spec == spec && Reported(texts, names, symbols, impls, judge, g)
  {
    OfOneKind(o.names(spec), AmbiguousQualifiedName, spec, names, NameTest(texts, spec), g);
    OfOneKind(o.symbols(spec), AmbiguousSymbol, spec, symbols, SymbolTest(texts, spec), g);
    GeneratedNone(spec, impls, judge);
  }

  lemma OfOneKind(order: seq<string>, kind: GapKind, spec: Id, owners: OwnerTable, test: string -> bool, g: Gap)
    requires Visits(order, owners.Keys)
    ensures g in SortedGaps(order, kind, spec, owners, test) <==>
            && g.kind == kind && g.spec == spec && g.anchor in owners && |owners[g.anchor]| >= 2 && test(g.anchor)
            && g.owners == owners[g.anchor]
  {
    AmbiguousFacts(order, kind, spec, owners, test);
  }

  /** A gap is found exactly when its specification mentions a symbol with several owners, or nothing matches it. */
  lemma {:induction false} GapMeaning(
    texts: Texts, names: OwnerTable, symbols: OwnerTable, o: Orders, specs: seq<Id>, impls: seq<Implementation>,
    judge: Judge, g: Gap)
    requires forall x :: x in specs ==> VisitsTables(o, names, symbols, x)
    ensures g in Found(specs, impls, judge, AmbiguousAlong(texts, names, symbols, o)) <==>
            g.spec in specs && Reported(texts, names, symbols, impls, judge, g)
  {
    if specs != [] {
      var front, last := specs[..|specs| - 1], specs[|specs| - 1];
      assert specs == front + [last] && last in specs;
      GapMeaning(texts, names, symbols, o, front, impls, judge, g);
      GapOfSpec(texts, names, symbols, o, last, impls, judge, g);
    }
  }

  /** A standalone mention of an owned symbol is either ambiguous or matches its only owner. */
  lemma UniqueOrAmbiguous(texts: Texts, impls: seq<Implementation>, spec: Id, i: Implementation)
    requires DistinctKeys(impls, ImplId) && i in impls && SymbolAnchor(texts)(i).Some?
    requires !texts.MentionsName(spec, i.qualifiedName) && texts.MentionsSymbol(spec, texts.lastPart(i.qualifiedName))
    ensures var symbols, symbol := Owners(impls, SymbolAnchor(texts)), texts.lastPart(i.qualifiedName);
            && symbol in symbols
            && (JudgeOf(texts, symbols)(spec, i) == Some(Match(2, texts.shared(spec, i.id))) <==>
                !IsAmbiguous(symbols, SymbolTest(texts, spec), symbol))
  {
    var symbol := texts.lastPart(i.qualifiedName);
    OwnersFacts(impls, SymbolAnchor(texts), symbol);
    assert Owns(i, SymbolAnchor(texts), symbol, i.id);
    var ids := Owners(impls, SymbolAnchor(texts))[symbol];
    assert i.id in ids && |ids| >= 1;
  }

  // ----- what the report leaves out -----

  type Identify = Candidate -> Id

  function At(omitted: map<Id, seq<Id>>, spec: Id): seq<Id> {
    if spec in omitted then omitted[spec] else []
  }

  method Generate(spec: Id, impls: seq<Implementation>, judge: Judge) returns (candidates: seq<Candidate>)
    ensures candidates == Generated(spec, impls, judge)
  {
    candidates := [];
    for i := 0 to |impls|
      invariant candidates == Generated(spec, impls[..i], judge)
    {
      assert impls[..i + 1][..i] == impls[..i];
      var m := judge(spec, impls[i]);
      if m.Some? {
        candidates := candidates + [ToCandidate(spec, impls[i], m.value)];
      }
    }
    assert impls[..|impls|] == impls;
  }

  /** What a list gained for one specification. */
  predicate AsideAt(
    before: map<Id, seq<Id>>, after: map<Id, seq<Id>>, done: seq<Candidate>, identify: Identify, x: Id) {
    At(after, x) == At(before, x) + Mapped(OfSpec(done, x), identify)
  }

  ghost predicate Aside(before: map<Id, seq<Id>>, after: map<Id, seq<Id>>, done: seq<Candidate>, identify: Identify) {
    && (forall x {:trigger AsideAt(before, after, done, identify, x)} :: AsideAt(before, after, done, identify, x))
    && NoneEmpty(after)
  }

  ghost predicate NoneEmpty(omitted: map<Id, seq<Id>>) {
    forall x :: x in omitted ==> omitted[x] != []
  }

  lemma AsideStep(
    before: map<Id, seq<Id>>, after: map<Id, seq<Id>>, done: seq<Candidate>, c: Candidate, identify: Identify)
    requires Aside(before, after, done, identify)
    ensures Aside(before, after[c.spec := At(after, c.spec) + [identify(c)]], done + [c], identify)
  {
    var after', more := after[c.spec := At(after, c.spec) + [identify(c)]], done + [c];
    forall x
      ensures AsideAt(before, after', more, identify, x)
    {
      assert AsideAt(before, after, done, identify, x);
      OfSpecAppend(done, c, x);
      MappedStep(OfSpec(done, x), c, identify);
    }
  }

  lemma OfSpecAppend(s: seq<Candidate>, c: Candidate, x: Id)
    ensures OfSpec(s + [c], x) == if c.spec == x then OfSpec(s, x) + [c] else OfSpec(s, x)
  {
    assert (s + [c])[..|s|] == s;
  }

  /** Appends each candidate's id to its specification's list. */
  method SetAside(omitted: map<Id, seq<Id>>, candidates: seq<Candidate>, identify: Identify)
    returns (omitted': map<Id, seq<Id>>)
    requires NoneEmpty(omitted)
    ensures Aside(omitted, omitted', candidates, identify)
  {
    omitted' := omitted;
    for i := 0 to |candidates|
      invariant Aside(omitted, omitted', candidates[..i], identify)
    {
      var c := candidates[i];
      assert candidates[..i + 1] == candidates[..i] + [c];
      AsideStep(omitted, omitted', candidates[..i], c, identify);
      omitted' := omitted'[c.spec := At(omitted', c.spec) + [identify(c)]];
    }
    assert candidates[..|candidates|] == candidates;
  }

  lemma MappedStep(s: seq<Candidate>, c: Candidate, identify: Identify)
    ensures Mapped(s + [c], identify) == Mapped(s, identify) + [identify(c)]
    ensures Mapped(s + [], identify) == Mapped(s, identify)
  {
    assert s + [] == s;
  }

  lemma {:induction false} AllOfSpec(s: seq<Candidate>, spec: Id, x: Id)
    requires forall c :: c in s ==> c.spec == spec
    ensures OfSpec(s, x) == if x == spec then s else []
  {
    if s != [] {
      assert s == s[..|s| - 1] + [s[|s| - 1]];
      AllOfSpec(s[..|s| - 1], spec, x);
    }
  }

  function OmittedIds(specs: seq<Id>, impls: seq<Implementation>, judge: Judge, identify: Identify, spec: Id): seq<Id> {
    Mapped(OmittedOf(specs, impls, judge, spec), identify)
  }

  function TruncationSpec(t: Truncation): string { t.spec }

  /** At most thirty-two ids in byte order, and a count of the rest. */
  function TruncationOf(spec: Id, omitted: seq<Id>): Truncation {
    var ids := SortBy(omitted, SelfKey);
    var listed := Least(|ids|, OMITTED_ID_LIMIT);
    Truncation(spec, |ids|, ids[..listed], |ids| - listed)
  }

  /** One record for each of these specifications. */
  function TruncationsOf(
    sorted: seq<Id>, specs: seq<Id>, impls: seq<Implementation>, judge: Judge, identify: Identify): seq<Truncation> {
    seq(|sorted|,
        i requires 0 <= i < |sorted| => TruncationOf(sorted[i], OmittedIds(specs, impls, judge, identify, sorted[i])))
  }

  /** What has been set aside, by specification. */
  ghost predicate HoldsOmitted(
    omitted: map<Id, seq<Id>>, specs: seq<Id>, impls: seq<Implementation>, judge: Judge, identify: Identify)
  {
    && NoneEmpty(omitted)
    && forall x {:trigger OmittedHere(omitted, specs, impls, judge, identify, x)} ::
       OmittedHere(omitted, specs, impls, judge, identify, x)
  }

  predicate OmittedHere(
    omitted: map<Id, seq<Id>>, specs: seq<Id>, impls: seq<Implementation>, judge: Judge, identify: Identify, x: Id)
  {
    At(omitted, x) == if x in specs then OmittedIds(specs, impls, judge, identify, x) else []
  }

  /** Specifications with something left out. */
  ghost function Lacking(specs: seq<Id>, impls: seq<Implementation>, judge: Judge): set<Id> {
    set x | x in specs && OmittedOf(specs, impls, judge, x) != []
  }

  lemma OmittedKeys(
    omitted: map<Id, seq<Id>>, specs: seq<Id>, impls: seq<Implementation>, judge: Judge, identify: Identify)
    requires HoldsOmitted(omitted, specs, impls, judge, identify)
    ensures omitted.Keys == Lacking(specs, impls, judge)
  {
    forall x
      ensures x in omitted.Keys <==> x in Lacking(specs, impls, judge)
    {
      assert OmittedHere(omitted, specs, impls, judge, identify, x);
    }
  }

  /** Collects the keys in whatever order the table gives them, sorts them, and lists each entry. */
  method ListTruncations(
    omitted: map<Id, seq<Id>>, ghost specs: seq<Id>, ghost impls: seq<Implementation>, ghost judge: Judge,
    ghost identify: Identify)
    returns (truncations: seq<Truncation>)
    requires HoldsOmitted(omitted, specs, impls, judge, identify)
    ensures forall order :: Visits(order, Lacking(specs, impls, judge)) ==>
              truncations == TruncationsOf(SortBy(order, SelfKey), specs, impls, judge, identify)
  {
    OmittedKeys(omitted, specs, impls, judge, identify);
    var sorted := SortedIds(omitted.Keys);
    truncations := [];
    assert sorted[..0] == [];
    for i := 0 to |sorted|
      invariant truncations == TruncationsOf(sorted[..i], specs, impls, judge, identify)
    {
      assert sorted[i] in Elements(sorted);
      assert OmittedHere(omitted, specs, impls, judge, identify, sorted[i]);
      TruncationsStep(sorted, i, specs, impls, judge, identify);
      truncations := truncations + [TruncationOf(sorted[i], omitted[sorted[i]])];
    }
    assert sorted[..|sorted|] == sorted;
    AnyOrderSorts(sorted, Lacking(specs, impls, judge));
  }

  lemma TruncationsStep(
    sorted: seq<Id>, i: nat, specs: seq<Id>, impls: seq<Implementation>, judge: Judge, identify: Identify)
    requires i < |sorted|
    ensures TruncationsOf(sorted[..i + 1], specs, impls, judge, identify)
            == TruncationsOf(sorted[..i], specs, impls, judge, identify)
               + [TruncationOf(sorted[i], OmittedIds(specs, impls, judge, identify, sorted[i]))]
  {
  }

  lemma AnyOrderSorts(sorted: seq<Id>, keys: set<Id>)
    requires Visits(sorted, keys) && SortedBy(sorted, SelfKey)
    ensures forall order :: Visits(order, keys) ==> SortBy(order, SelfKey) == sorted
  {
    forall order | Visits(order, keys)
      ensures SortBy(order, SelfKey) == sorted
    {
      SameIdsSorted(order, sorted);
    }
  }

  lemma SameIdsSorted(order: seq<Id>, sorted: seq<Id>)
    requires NoDuplicates(order) && NoDuplicates(sorted) && SortedBy(sorted, SelfKey)
             && Elements(order) == Elements(sorted)
    ensures SortBy(order, SelfKey) == sorted
  {
    SortedOnce(order);
    assert forall x :: x in sorted <==> x in Elements(sorted);
    assert forall x :: x in SortBy(order, SelfKey) <==> x in Elements(SortBy(order, SelfKey));
    assert DistinctKeys(sorted, SelfKey) && DistinctKeys(SortBy(order, SelfKey), SelfKey);
    SortedUnique(SortBy(order, SelfKey), sorted, SelfKey);
  }

  /** A truncation lists the first omitted ids in byte order and counts the rest. */
  predicate Truthful(t: Truncation, ids: seq<Id>) {
    && t.count == |ids| > 0 && |t.listed| == Least(t.count, OMITTED_ID_LIMIT) && |t.listed| + t.unlisted == t.count
    && t.listed <= SortBy(ids, SelfKey)
  }

  /** One truthful record for every specification with something left out, and no other. */
  lemma TruncationFacts(order: seq<Id>, specs: seq<Id>, impls: seq<Implementation>, judge: Judge, identify: Identify)
    requires Visits(order, Lacking(specs, impls, judge))
    ensures var ts := TruncationsOf(SortBy(order, SelfKey), specs, impls, judge, identify);
            && DistinctKeys(ts, TruncationSpec) && SortedBy(ts, TruncationSpec)
            && Refs(ts, TruncationSpec) == Lacking(specs, impls, judge)
            && forall t :: t in ts ==> Truthful(t, OmittedIds(specs, impls, judge, identify, t.spec))
  {
    var sorted := SortBy(order, SelfKey);
    SortedOnce(order);
    var ts := TruncationsOf(sorted, specs, impls, judge, identify);
    assert Mapped(ts, TruncationSpec) == sorted;
    forall i, j | 0 <= i < j < |ts|
      ensures TruncationSpec(ts[i]) != TruncationSpec(ts[j]) && Leq(TruncationSpec(ts[i]), TruncationSpec(ts[j]))
    {
      assert sorted[i] != sorted[j] && Leq(SelfKey(sorted[i]), SelfKey(sorted[j]));
    }
    forall t | t in ts
      ensures Truthful(t, OmittedIds(specs, impls, judge, identify, t.spec))
    {
      var i :| 0 <= i < |ts| && ts[i] == t;
      assert sorted[i] in Elements(sorted);
      SortFacts(OmittedIds(specs, impls, judge, identify, sorted[i]), SelfKey);
    }
  }

  /** The ids set aside so far for one specification. */
  predicate DroppedAt(
    done: seq<Id>, impls: seq<Implementation>, judge: Judge, identify: Identify, omitted: map<Id, seq<Id>>, x: Id) {
    At(omitted, x) == if x in done then Mapped(DroppedOf(x, impls, judge), identify) else []
  }

  ghost predicate AllDropped(
    done: seq<Id>, impls: seq<Implementation>, judge: Judge, identify: Identify, omitted: map<Id, seq<Id>>) {
    && (forall x {:trigger DroppedAt(done, impls, judge, identify, omitted, x)} ::
        DroppedAt(done, impls, judge, identify, omitted, x))
    && NoneEmpty(omitted)
  }

  /** A specification that drops nothing needs no entry. */
  lemma DroppedNothing(
    done: seq<Id>, spec: Id, impls: seq<Implementation>, judge: Judge, identify: Identify, omitted: map<Id, seq<Id>>)
    requires AllDropped(done, impls, judge, identify, omitted) && spec !in done && Generated(spec, impls, judge) == []
    ensures AllDropped(done + [spec], impls, judge, identify, omitted)
  {
    forall x
      ensures DroppedAt(done + [spec], impls, judge, identify, omitted, x)
    {
      assert DroppedAt(done, impls, judge, identify, omitted, x);
      NothingRanked(spec, impls, judge, identify);
    }
  }

  /** The entry of one specification: its own drops are added, any other stays as it was. */
  lemma DroppedHere(
    done: seq<Id>, spec: Id, impls: seq<Implementation>, judge: Judge, identify: Identify,
    omitted: map<Id, seq<Id>>, omitted': map<Id, seq<Id>>, x: Id)
    requires DroppedAt(done, impls, judge, identify, omitted, x) && spec !in done
    requires AsideAt(omitted, omitted', DroppedOf(spec, impls, judge), identify, x)
    requires OfSpec(DroppedOf(spec, impls, judge), x) == if x == spec then DroppedOf(spec, impls, judge) else []
    ensures DroppedAt(done + [spec], impls, judge, identify, omitted', x)
  {
    if x == spec {
      assert x in done + [spec] && At(omitted, x) == [];
    } else {
      assert x in done + [spec] <==> x in done;
      assert At(omitted', x) == At(omitted, x);
    }
  }

  lemma DroppedSome(
    done: seq<Id>, spec: Id, impls: seq<Implementation>, judge: Judge, identify: Identify,
    omitted: map<Id, seq<Id>>, omitted': map<Id, seq<Id>>)
    requires DistinctKeys(impls, ImplId)
    requires AllDropped(done, impls, judge, identify, omitted) && spec !in done
    requires Aside(omitted, omitted', DroppedOf(spec, impls, judge), identify)
    ensures AllDropped(done + [spec], impls, judge, identify, omitted')
  {
    forall x
      ensures DroppedAt(done + [spec], impls, judge, identify, omitted', x)
    {
      assert DroppedAt(done, impls, judge, identify, omitted, x);
      assert AsideAt(omitted, omitted', DroppedOf(spec, impls, judge), identify, x);
      DroppedIsOfSpec(spec, impls, judge, x);
      DroppedHere(done, spec, impls, judge, identify, omitted, omitted', x);
    }
  }

  lemma NothingRanked(spec: Id, impls: seq<Implementation>, judge: Judge, identify: Identify)
    requires Generated(spec, impls, judge) == []
    ensures KeptOf(spec, impls, judge) == [] && Mapped(DroppedOf(spec, impls, judge), identify) == []
  {
  }

  lemma DroppedIsOfSpec(spec: Id, impls: seq<Implementation>, judge: Judge, x: Id)
    requires DistinctKeys(impls, ImplId)
    ensures OfSpec(DroppedOf(spec, impls, judge), x) == if x == spec then DroppedOf(spec, impls, judge) else []
  {
    RankedFacts(spec, impls, judge);
    var dropped, r := DroppedOf(spec, impls, judge), Ranked(spec, impls, judge);
    forall c | c in dropped
      ensures c.spec == spec
    {
      var i :| 0 <= i < |dropped| && dropped[i] == c;
      assert r[|r| - |dropped| + i] == c;
    }
    AllOfSpec(dropped, spec, x);
  }

  lemma MappedJoin(a: seq<Candidate>, b: seq<Candidate>, identify: Identify)
    ensures Mapped(a + b, identify) == Mapped(a, identify) + Mapped(b, identify)
  {
  }

  lemma NothingForeign(specs: seq<Id>, impls: seq<Implementation>, judge: Judge, x: Id)
    requires DistinctKeys(impls, ImplId) && NoDuplicates(specs) && x !in specs
    ensures OfSpec(CutOff(specs, impls, judge), x) == []
  {
    GlobalFacts(specs, impls, judge);
    PoolFacts(specs, impls, judge);
    var cut := CutOff(specs, impls, judge);
    forall c | c in cut
      ensures c in InGlobalOrder(specs, impls, judge)
    {
    }
    NoneOfSpec(cut, x);
  }

  lemma {:induction false} NoneOfSpec(s: seq<Candidate>, x: Id)
    requires forall c :: c in s ==> c.spec != x
    ensures OfSpec(s, x) == []
  {
    if s != [] {
      assert s == s[..|s| - 1] + [s[|s| - 1]];
      NoneOfSpec(s[..|s| - 1], x);
    }
  }

  // ----- the report -----

  /** The specifications and implementations of a validated cut, each sorted by id. */
  datatype Cut = Cut(specs: seq<Id>, impls: seq<Implementation>) {
    ghost predicate Valid() {
      && SortedBy(specs, SelfKey) && NoDuplicates(specs)
      && SortedBy(impls, ImplId) && DistinctKeys(impls, ImplId)
    }

    function Names(texts: Texts): OwnerTable {
      Owners(impls, NameAnchor(texts))
    }

    function Symbols(texts: Texts): OwnerTable {
      Owners(impls, SymbolAnchor(texts))
    }

    function Judged(texts: Texts): Judge {
      JudgeOf(texts, Symbols(texts))
    }
  }

  /** Every table is iterated completely, in an order of its own choosing. */
  ghost predicate Iterates(cut: Cut, texts: Texts, o: Orders) {
    && (forall x :: x in cut.specs ==> VisitsTables(o, cut.Names(texts), cut.Symbols(texts), x))
    && Visits(o.omitted, Lacking(cut.specs, cut.impls, cut.Judged(texts)))
  }

  function GapsFound(cut: Cut, texts: Texts, o: Orders): seq<Gap> {
    Found(cut.specs, cut.impls, cut.Judged(texts), AmbiguousAlong(texts, cut.Names(texts), cut.Symbols(texts), o))
  }

  /** The report made when the tables are iterated in these orders. */
  function ReportAlong(cut: Cut, texts: Texts, identify: Identify, o: Orders): Report {
    var judge, found := cut.Judged(texts), GapsFound(cut, texts, o);
    Report(
      Emitted(cut.specs, cut.impls, judge), Arranged(FirstGaps(found), GapBefore), |found| - |FirstGaps(found)|,
      TruncationsOf(SortBy(o.omitted, SelfKey), cut.specs, cut.impls, judge, identify))
  }

  /** Any two iteration orders of the tables give the same gaps and the same report. */
  lemma AnyOrderSameReport(cut: Cut, texts: Texts, identify: Identify, o: Orders, o': Orders)
    requires Iterates(cut, texts, o) && Iterates(cut, texts, o')
    ensures GapsFound(cut, texts, o) == GapsFound(cut, texts, o')
    ensures ReportAlong(cut, texts, identify, o) == ReportAlong(cut, texts, identify, o')
  {
    var names, symbols := cut.Names(texts), cut.Symbols(texts);
    var ambiguous, ambiguous' := AmbiguousAlong(texts, names, symbols, o), AmbiguousAlong(texts, names, symbols, o');
    forall x | x in cut.specs
      ensures ambiguous(x) == ambiguous'(x)
    {
      assert VisitsTables(o, names, symbols, x) && VisitsTables(o', names, symbols, x);
      AnyOrderSameGaps(o.names(x), o'.names(x), AmbiguousQualifiedName, x, names, NameTest(texts, x));
      AnyOrderSameGaps(o.symbols(x), o'.symbols(x), AmbiguousSymbol, x, symbols, SymbolTest(texts, x));
    }
    FoundSame(cut.specs, cut.impls, cut.Judged(texts), ambiguous, ambiguous');
    SortedOnce(o'.omitted);
    SameIdsSorted(o.omitted, SortBy(o'.omitted, SelfKey));
  }

  /**
   The listed gaps are the first of all gaps in report order, no two for the same
   specification, kind and anchor; every specification with something left out has one
   truthful truncation.
   */
  lemma ReportFacts(cut: Cut, texts: Texts, identify: Identify, o: Orders)
    requires cut.Valid() && Iterates(cut, texts, o)
    ensures var found, r := GapsFound(cut, texts, o), ReportAlong(cut, texts, identify, o);
            && Ordered(GapBefore, found) && DistinctKeys(found, GapTriple)
            && r.gaps == FirstGaps(found) && |r.gaps| + r.omittedGaps == |found|
    ensures var ts := ReportAlong(cut, texts, identify, o).truncations;
            && DistinctKeys(ts, TruncationSpec) && SortedBy(ts, TruncationSpec)
            && Refs(ts, TruncationSpec) == Lacking(cut.specs, cut.impls, cut.Judged(texts))
            && forall t :: t in ts ==>
               Truthful(t, OmittedIds(cut.specs, cut.impls, cut.Judged(texts), identify, t.spec))
  {
    var found, judge := GapsFound(cut, texts, o), cut.Judged(texts);
    FoundInOrder(texts, cut.Names(texts), cut.Symbols(texts), o, cut.specs, cut.impls, judge);
    OrderedGapsDistinct(found);
    var listed := FirstGaps(found);
    assert DistinctKeys(listed, GapTriple);
    ArrangedAlready(listed);
    TruncationFacts(o.omitted, cut.specs, cut.impls, judge, identify);
  }

  lemma {:induction false} ArrangedAlready(s: seq<Gap>)
    requires Ordered(GapBefore, s)
    ensures Arranged(s, GapBefore) == s
  {
    if s != [] {
      assert Ordered(GapBefore, s[1..]);
      ArrangedAlready(s[1..]);
      assert |s| > 1 ==> GapBefore(s[0], s[1]) && s[1..][0] == s[1];
      assert s == [s[0]] + s[1..];
    }
  }

  // ----- the proposer -----

  /** What has been counted after these specifications, whatever the order of iteration. */
  ghost predicate Tallied(
    done: seq<Id>, impls: seq<Implementation>, judge: Judge, ambiguous: Ambiguities, identify: Identify,
    pool: seq<Candidate>, omitted: map<Id, seq<Id>>, gaps: seq<Gap>, omittedGaps: nat)
  {
    && pool == Pool(done, impls, judge) && AllDropped(done, impls, judge, identify, omitted)
    && gaps == FirstGaps(Found(done, impls, judge, ambiguous))
    && omittedGaps == |Found(done, impls, judge, ambiguous)| - |gaps|
  }

  /** The ambiguous names and the ambiguous symbols that one specification mentions. */
  method FindAmbiguous(spec: Id, texts: Texts, names: OwnerTable, symbols: OwnerTable, ghost o: Orders)
    returns (byName: seq<Gap>, bySymbol: seq<Gap>)
    requires VisitsTables(o, names, symbols, spec)
    ensures byName + bySymbol == AmbiguousAlong(texts, names, symbols, o)(spec)
  {
    byName := AmbiguousGaps(AmbiguousQualifiedName, spec, names, NameTest(texts, spec));
    bySymbol := AmbiguousGaps(AmbiguousSymbol, spec, symbols, SymbolTest(texts, spec));
  }

  /** Appends the gaps of one specification: names, symbols, then the lack of any match. */
  method TallyGaps(
    spec: Id, ghost done: seq<Id>, ghost impls: seq<Implementation>, ghost judge: Judge, ghost ambiguous: Ambiguities,
    byName: seq<Gap>, bySymbol: seq<Gap>, gaps: seq<Gap>, omittedGaps: nat, candidates: seq<Candidate>)
    returns (gaps': seq<Gap>, omittedGaps': nat)
    requires byName + bySymbol == ambiguous(spec) && candidates == Generated(spec, impls, judge)
    requires gaps == FirstGaps(Found(done, impls, judge, ambiguous))
    requires omittedGaps == |Found(done, impls, judge, ambiguous)| - |gaps|
    ensures gaps' == FirstGaps(Found(done + [spec], impls, judge, ambiguous))
    ensures omittedGaps' == |Found(done + [spec], impls, judge, ambiguous)| - |gaps'|
  {
    ghost var found := Found(done, impls, judge, ambiguous);
    assert (done + [spec])[..|done|] == done;
    gaps', omittedGaps' := AppendGaps(gaps, omittedGaps, found, byName);
    gaps', omittedGaps' := AppendGaps(gaps', omittedGaps', found + byName, bySymbol);
    assert found + byName + bySymbol == found + ambiguous(spec);
    if |candidates| == 0 {
      gaps', omittedGaps' := AppendGap(gaps', omittedGaps', found + ambiguous(spec), Gap(NoEvidence, spec, "", []));
      assert found + ambiguous(spec) + [Gap(NoEvidence, spec, "", [])] == found + GapsOf(spec, impls, judge, ambiguous);
    } else {
      assert ambiguous(spec) + [] == ambiguous(spec);
    }
  }

  method Tally(
    specs: seq<Id>, impls: seq<Implementation>, judge: Judge, texts: Texts, names: OwnerTable, symbols: OwnerTable,
    identify: Identify, ghost o: Orders)
    returns (pool: seq<Candidate>, omitted: map<Id, seq<Id>>, gaps: seq<Gap>, omittedGaps: nat)
    requires DistinctKeys(impls, ImplId) && NoDuplicates(specs)
             && forall x :: x in specs ==> VisitsTables(o, names, symbols, x)
    ensures Tallied(specs, impls, judge, AmbiguousAlong(texts, names, symbols, o), identify, pool, omitted, gaps,
                    omittedGaps)
  {
    pool, omitted, gaps, omittedGaps := [], map[], [], 0;
    ghost var ambiguous := AmbiguousAlong(texts, names, symbols, o);
    for i := 0 to |specs|
      invariant Tallied(specs[..i], impls, judge, ambiguous, identify, pool, omitted, gaps, omittedGaps)
    {
      var spec := specs[i];
      assert specs[..i + 1][..i] == specs[..i] && specs[..i + 1] == specs[..i] + [spec];
      var candidates := Generate(spec, impls, judge);
      var byName, bySymbol := FindAmbiguous(spec, texts, names, symbols, o);
      gaps, omittedGaps := TallyGaps(
        spec, specs[..i], impls, judge, ambiguous, byName, bySymbol, gaps, omittedGaps, candidates);
      if |candidates| == 0 {
        DroppedNothing(specs[..i], spec, impls, judge, identify, omitted);
        NothingRanked(spec, impls, judge, identify);
        assert pool + [] == pool;
        continue;
      }
      var ranked := WithRanks(Arranged(candidates, LocalBefore));
      var kept := Least(|ranked|, PER_SPECIFICATION);
      pool := pool + ranked[..kept];
      ghost var was := omitted;
      omitted := SetAside(omitted, ranked[kept..], identify);
      DroppedSome(specs[..i], spec, impls, judge, identify, was, omitted);
    }
    assert specs[..|specs|] == specs;
  }

  lemma SetAsideAll(
    specs: seq<Id>, impls: seq<Implementation>, judge: Judge, identify: Identify, was: map<Id, seq<Id>>,
    omitted: map<Id, seq<Id>>)
    requires DistinctKeys(impls, ImplId) && NoDuplicates(specs)
    requires AllDropped(specs, impls, judge, identify, was)
             && Aside(was, omitted, CutOff(specs, impls, judge), identify)
    ensures HoldsOmitted(omitted, specs, impls, judge, identify)
  {
    forall x
      ensures OmittedHere(omitted, specs, impls, judge, identify, x)
    {
      assert DroppedAt(specs, impls, judge, identify, was, x);
      assert AsideAt(was, omitted, CutOff(specs, impls, judge), identify, x);
      MappedJoin(DroppedOf(x, impls, judge), OfSpec(CutOff(specs, impls, judge), x), identify);
      if x !in specs {
        NothingForeign(specs, impls, judge, x);
      }
    }
  }

  /** Some orders of iteration; every other gives the same report. */
  ghost function ByteOrders(cut: Cut, texts: Texts): (o: Orders)
    ensures Iterates(cut, texts, o)
  {
    var names, symbols := cut.Names(texts), cut.Symbols(texts);
    Orders(x => Ascending(names.Keys), x => Ascending(symbols.Keys),
           Ascending(Lacking(cut.specs, cut.impls, cut.Judged(texts))))
  }

  /** Refused for too many pairs; otherwise one report, the same for every order in which the tables are iterated. */
  method ProposeCandidates(cut: Cut, texts: Texts, identify: Identify) returns (r: Option<Report>)
    requires cut.Valid()
    ensures r.Some? <==> |cut.specs| * |cut.impls| <= PAIR_LIMIT
    ensures r.Some? ==> forall o :: Iterates(cut, texts, o) ==> r.value == ReportAlong(cut, texts, identify, o)
  {
    if |cut.specs| * |cut.impls| > PAIR_LIMIT {
      return None;
    }
    var names := BuildOwners(cut.impls, NameAnchor(texts));
    var symbols := BuildOwners(cut.impls, SymbolAnchor(texts));
    var judge := JudgeOf(texts, symbols);
    ghost var o := ByteOrders(cut, texts);
    var pool, omitted, gaps, omittedGaps := Tally(cut.specs, cut.impls, judge, texts, names, symbols, identify, o);
    var all := Arranged(pool, GlobalBefore);
    var emit := Least(|all|, PER_REPORT);
    ghost var was := omitted;
    omitted := SetAside(omitted, all[emit..], identify);
    SetAsideAll(cut.specs, cut.impls, judge, identify, was, omitted);
    var truncations := ListTruncations(omitted, cut.specs, cut.impls, judge, identify);
    r := Some(Report(all[..emit], Arranged(gaps, GapBefore), omittedGaps, truncations));
    assert r.value == ReportAlong(cut, texts, identify, o);
    forall o' | Iterates(cut, texts, o')
      ensures r.value == ReportAlong(cut, texts, identify, o')
    {
      AnyOrderSameReport(cut, texts, identify, o, o');
    }
  }
}
