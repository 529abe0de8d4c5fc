/**
 The candidate report read off the scanned texts: which pairs are candidates, in what order
 they are listed, and which mentions are ambiguous.
 */
module PlainCandidates {
  import opened Outcomes
  import opened Ordering
  import opened StrictOrder
  import opened CandidateProposer
  import opened CandidateReport

  // ----- how a specification mentions an implementation -----

  /** The whole qualified name is mentioned. */
  ghost predicate Exact(texts: Texts, spec: Id, i: Implementation) {
    texts.supported(i.qualifiedName) && texts.mentioned(spec, i.qualifiedName)
  }

  /** One of the implementations that the symbol names. */
  ghost predicate Named(texts: Texts, symbol: string, i: Implementation) {
    texts.supported(i.qualifiedName) && texts.lastPart(i.qualifiedName) == symbol
  }

  ghost predicate NamedOnce(texts: Texts, impls: seq<Implementation>, symbol: string) {
    exists i :: i in impls && Named(texts, symbol, i) && forall j :: j in impls && Named(texts, symbol, j) ==>
      j.id == i.id
  }

  /** Its simple symbol stands alone in the text and names one implementation of the cut. */
  ghost predicate Sole(texts: Texts, impls: seq<Implementation>, spec: Id, i: Implementation) {
    var symbol := texts.lastPart(i.qualifiedName);
    symbol != "" && texts.standalone(spec, symbol) && NamedOnce(texts, impls, symbol)
  }

  ghost predicate IsCandidate(texts: Texts, impls: seq<Implementation>, spec: Id, i: Implementation) {
    Exact(texts, spec, i) || Sole(texts, impls, spec, i) || texts.shared(spec, i.id) >= 2
  }

  /** Exact mentions first, then sole symbols, then shared words. */
  ghost predicate Stronger(
    texts: Texts, impls: seq<Implementation>, spec: Id, i: Implementation, spec': Id, j: Implementation) {
    || (Exact(texts, spec, i) && !Exact(texts, spec', j))
    || (!Exact(texts, spec', j) && Sole(texts, impls, spec, i) && !Sole(texts, impls, spec', j))
  }

  ghost predicate SameClass(
    texts: Texts, impls: seq<Implementation>, spec: Id, i: Implementation, spec': Id, j: Implementation)
  {
    !Stronger(texts, impls, spec, i, spec', j) && !Stronger(texts, impls, spec', j, spec, i)
  }

  /** Within a class more shared words, then the specification, the qualified name and the id decide. */
  ghost predicate Ahead(
    texts: Texts, impls: seq<Implementation>, spec: Id, i: Implementation, spec': Id, j: Implementation) {
    || Stronger(texts, impls, spec, i, spec', j)
    || (SameClass(texts, impls, spec, i, spec', j)
        && var m, n := texts.shared(spec, i.id), texts.shared(spec', j.id);
           || m > n
           || (m == n && (|| Less(spec, spec')
                          || (spec == spec' && (|| Less(i.qualifiedName, j.qualifiedName)
                                                || (i.qualifiedName == j.qualifiedName && Less(i.id, j.id)))))))
  }

  // ----- one pair -----

  lemma SymbolOwners(texts: Texts, impls: seq<Implementation>, symbol: string)
    requires DistinctKeys(impls, ImplId) && symbol != ""
    ensures var symbols := Owners(impls, SymbolAnchor(texts));
            && (symbol in symbols <==> exists i :: i in impls && Named(texts, symbol, i))
            && (symbol in symbols ==>
                  && SortedBy(symbols[symbol], SelfKey) && NoDuplicates(symbols[symbol])
                  && forall id :: id in symbols[symbol] <==>
                                  exists i :: i in impls && Named(texts, symbol, i) && i.id == id)
  {
    var anchor := SymbolAnchor(texts);
    OwnersFacts(impls, anchor, symbol);
    forall i | i in impls
      ensures anchor(i) == Some(symbol) <==> Named(texts, symbol, i)
    {
    }
    var symbols := Owners(impls, anchor);
    if symbol in symbols {
      forall id
        ensures id in symbols[symbol] <==> exists i :: i in impls && Named(texts, symbol, i) && i.id == id
      {
        if id in symbols[symbol] {
          var i :| i in impls && Owns(i, anchor, symbol, id);
        }
        if i :| i in impls && Named(texts, symbol, i) && i.id == id {
          assert Owns(i, anchor, symbol, id);
        }
      }
    }
  }

  lemma OneMember(ids: seq<Id>)
    requires NoDuplicates(ids) && ids != []
    ensures |ids| == 1 <==> forall x, y :: x in ids && y in ids ==> x == y
  {
    if |ids| > 1 {
      assert ids[0] in ids && ids[1] in ids;
    }
  }

  lemma SoleOwner(texts: Texts, impls: seq<Implementation>, symbol: string)
    requires DistinctKeys(impls, ImplId) && symbol != ""
    ensures var symbols := Owners(impls, SymbolAnchor(texts));
            symbol in symbols && |symbols[symbol]| == 1 <==> NamedOnce(texts, impls, symbol)
  {
    SymbolOwners(texts, impls, symbol);
    var symbols := Owners(impls, SymbolAnchor(texts));
    if symbol in symbols {
      var ids := symbols[symbol];
      var first :| first in impls && Named(texts, symbol, first);
      assert first.id in ids;
      OneMember(ids);
      if |ids| == 1 {
        forall j | j in impls && Named(texts, symbol, j)
          ensures j.id == first.id
        {
          assert j.id in ids;
        }
      }
      if NamedOnce(texts, impls, symbol) {
        var i :| i in impls && Named(texts, symbol, i)
                 && forall j :: j in impls && Named(texts, symbol, j) ==> j.id == i.id;
      }
    }
  }

  /** The match of a pair, by cases of its texts. */
  lemma JudgedPlainly(texts: Texts, impls: seq<Implementation>, spec: Id, i: Implementation)
    requires DistinctKeys(impls, ImplId)
    ensures var m := JudgeOf(texts, Owners(impls, SymbolAnchor(texts)))(spec, i);
            && (m.Some? <==> IsCandidate(texts, impls, spec, i))
            && (m.Some? ==>
                  && m.value.shared == texts.shared(spec, i.id)
                  && m.value.strength == if Exact(texts, spec, i) then 3 else if Sole(texts, impls, spec, i) then 2
                     else 1)
  {
    var symbol, symbols := texts.lastPart(i.qualifiedName), Owners(impls, SymbolAnchor(texts));
    if symbol != "" {
      SoleOwner(texts, impls, symbol);
    }
    assert Sole(texts, impls, spec, i) <==>
           texts.MentionsSymbol(spec, symbol) && symbol in symbols && |symbols[symbol]| == 1;
    var m := JudgeOf(texts, symbols)(spec, i);
    assert Exact(texts, spec, i) ==> m == Some(Match(3, texts.shared(spec, i.id)));
    assert !Exact(texts, spec, i) && Sole(texts, impls, spec, i) ==> m == Some(Match(2, texts.shared(spec, i.id)));
    assert m.None? ==> texts.shared(spec, i.id) < 2;
    assert !Exact(texts, spec, i) && !Sole(texts, impls, spec, i) && texts.shared(spec, i.id) < 2 ==> m.None?;
  }

  // ----- the listed candidates -----

  lemma {:induction false} GeneratedFrom(spec: Id, impls: seq<Implementation>, judge: Judge, c: Candidate)
    ensures c in Generated(spec, impls, judge) <==>
            exists i :: i in impls && judge(spec, i).Some? && c == ToCandidate(spec, i, judge(spec, i).value)
  {
    if impls != [] {
      var front, last := impls[..|impls| - 1], impls[|impls| - 1];
      GeneratedFrom(spec, front, judge, c);
      assert impls == front + [last];
      if i :| i in impls && judge(spec, i).Some? && c == ToCandidate(spec, i, judge(spec, i).value) {
        assert i in front || i == last;
      }
      if c in Generated(spec, front, judge) {
        var i :| i in front && judge(spec, i).Some? && c == ToCandidate(spec, i, judge(spec, i).value);
        assert i in impls;
      }
    }
  }

  /** The listed candidate is this implementation's. */
  ghost predicate Shows(impls: seq<Implementation>, c: Candidate, i: Implementation) {
    i in impls && c.impl == i.id && c.qualifiedName == i.qualifiedName
  }

  /** It carries the pair's own match. */
  ghost predicate Carries(texts: Texts, impls: seq<Implementation>, c: Candidate, i: Implementation) {
    && Shows(impls, c, i) && IsCandidate(texts, impls, c.spec, i) && c.shared == texts.shared(c.spec, i.id)
    && c.strength == if Exact(texts, c.spec, i) then 3 else if Sole(texts, impls, c.spec, i) then 2 else 1
  }

  lemma OneShown(impls: seq<Implementation>, c: Candidate, i: Implementation, j: Implementation)
    requires DistinctKeys(impls, ImplId) && Shows(impls, c, i) && Shows(impls, c, j)
    ensures i == j
  {
    IndexKeys(impls, ImplId);
    assert Index(impls, ImplId)[ImplId(i)] == i && Index(impls, ImplId)[ImplId(j)] == j;
  }

  lemma RankedCarries(cut: Cut, texts: Texts, spec: Id, k: nat) returns (i: Implementation)
    requires cut.Valid() && k < |Ranked(spec, cut.impls, cut.Judged(texts))|
    ensures var c := Ranked(spec, cut.impls, cut.Judged(texts))[k]; c.spec == spec && Carries(texts, cut.impls, c, i)
  {
    var judge := cut.Judged(texts);
    var g := Generated(spec, cut.impls, judge);
    RankedFacts(spec, cut.impls, judge);
    GeneratedFacts(spec, cut.impls, judge);
    LocalStrict(g, spec);
    ArrangedFacts(g, g, LocalBefore);
    var c := Arranged(g, LocalBefore)[k];
    assert c in Arranged(g, LocalBefore);
    GeneratedFrom(spec, cut.impls, judge, c);
    i :| i in cut.impls && judge(spec, i).Some? && c == ToCandidate(spec, i, judge(spec, i).value);
    JudgedPlainly(texts, cut.impls, spec, i);
  }

  lemma CandidateRanked(cut: Cut, texts: Texts, spec: Id, i: Implementation) returns (k: nat)
    requires cut.Valid() && i in cut.impls && IsCandidate(texts, cut.impls, spec, i)
    ensures k < |Ranked(spec, cut.impls, cut.Judged(texts))|
    ensures var c := Ranked(spec, cut.impls, cut.Judged(texts))[k]; c.spec == spec && Carries(texts, cut.impls, c, i)
  {
    var judge := cut.Judged(texts);
    var g := Generated(spec, cut.impls, judge);
    JudgedPlainly(texts, cut.impls, spec, i);
    var c := ToCandidate(spec, i, judge(spec, i).value);
    GeneratedFrom(spec, cut.impls, judge, c);
    GeneratedFacts(spec, cut.impls, judge);
    LocalStrict(g, spec);
    ArrangedFacts(g, g, LocalBefore);
    k :| 0 <= k < |Arranged(g, LocalBefore)| && Arranged(g, LocalBefore)[k] == c;
    RankedFacts(spec, cut.impls, judge);
  }

  lemma BeforeIsAhead(
    texts: Texts, impls: seq<Implementation>, c: Candidate, d: Candidate, i: Implementation, j: Implementation)
    requires Carries(texts, impls, c, i) && Carries(texts, impls, d, j)
    ensures GlobalBefore(c, d) <==> Ahead(texts, impls, c.spec, i, d.spec, j)
  {
  }

  function Listed(cut: Cut, texts: Texts): seq<Candidate> {
    Emitted(cut.specs, cut.impls, cut.Judged(texts))
  }

  /** At most sixty-four candidates, at most eight for each specification, each a mentioned or sharing pair. */
  lemma ListedPlainly(cut: Cut, texts: Texts, k: nat) returns (i: Implementation)
    requires cut.Valid() && k < |Listed(cut, texts)|
    ensures |Listed(cut, texts)| <= 64
    ensures var c := Listed(cut, texts)[k];
            c.spec in cut.specs && 1 <= c.rank <= 8 && Carries(texts, cut.impls, c, i)
  {
    var judge, c := cut.Judged(texts), Listed(cut, texts)[k];
    BestSixtyFour(cut.specs, cut.impls, judge);
    PoolFacts(cut.specs, cut.impls, judge);
    assert c in Pool(cut.specs, cut.impls, judge);
    EmittedAtRank(cut.specs, cut.impls, judge, c);
    i := RankedCarries(cut, texts, c.spec, c.rank - 1);
    var top := RanksAreAPrefix(cut.specs, cut.impls, judge, c.spec);
    var rank: nat := c.rank;
    assert rank in EmittedRanks(cut.specs, cut.impls, judge, c.spec);
  }

  /** They are listed strictly by class, shared words, specification, qualified name and id. */
  lemma ListedAhead(cut: Cut, texts: Texts, k: nat, l: nat, i: Implementation, j: Implementation)
    requires cut.Valid() && k < l < |Listed(cut, texts)|
    requires Shows(cut.impls, Listed(cut, texts)[k], i) && Shows(cut.impls, Listed(cut, texts)[l], j)
    ensures Ahead(texts, cut.impls, Listed(cut, texts)[k].spec, i, Listed(cut, texts)[l].spec, j)
  {
    var c, d := Listed(cut, texts)[k], Listed(cut, texts)[l];
    var i' := ListedPlainly(cut, texts, k);
    var j' := ListedPlainly(cut, texts, l);
    OneShown(cut.impls, c, i, i');
    OneShown(cut.impls, d, j, j');
    GlobalFacts(cut.specs, cut.impls, cut.Judged(texts));
    var all := InGlobalOrder(cut.specs, cut.impls, cut.Judged(texts));
    assert all[k] == c && all[l] == d;
    BeforeIsAhead(texts, cut.impls, c, d, i, j);
  }

  /** A candidate that is ahead of a listed one of its specification has a better rank. */
  lemma AheadRanksBetter(cut: Cut, texts: Texts, d: Candidate, j: Implementation, i: Implementation) returns (n: nat)
    requires cut.Valid() && d in Listed(cut, texts) && d.spec in cut.specs && Carries(texts, cut.impls, d, j)
    requires i in cut.impls && IsCandidate(texts, cut.impls, d.spec, i) && Ahead(texts, cut.impls, d.spec, i, d.spec, j)
    ensures n + 1 < d.rank <= |Ranked(d.spec, cut.impls, cut.Judged(texts))|
    ensures var r := Ranked(d.spec, cut.impls, cut.Judged(texts));
            && r[d.rank - 1] == d && r[n].spec == d.spec && Shows(cut.impls, r[n], i) && GlobalBefore(r[n], d)
  {
    var judge := cut.Judged(texts);
    EmittedAtRank(cut.specs, cut.impls, judge, d);
    var r := Ranked(d.spec, cut.impls, judge);
    n := CandidateRanked(cut, texts, d.spec, i);
    var e := r[n];
    BeforeIsAhead(texts, cut.impls, e, d, i, j);
    OrdersAgree(e, d);
    RankedFacts(d.spec, cut.impls, judge);
    ByNameStrict(e, d, e);
    assert n >= d.rank ==> LocalBefore(d, e);
  }

  lemma EarlierInReport(cut: Cut, texts: Texts, e: Candidate, l: nat) returns (k: nat)
    requires cut.Valid() && l < |Listed(cut, texts)| && e in Listed(cut, texts)
    requires GlobalBefore(e, Listed(cut, texts)[l])
    ensures k < l && Listed(cut, texts)[k] == e
  {
    var d := Listed(cut, texts)[l];
    k :| 0 <= k < |Listed(cut, texts)| && Listed(cut, texts)[k] == e;
    GlobalFacts(cut.specs, cut.impls, cut.Judged(texts));
    var all := InGlobalOrder(cut.specs, cut.impls, cut.Judged(texts));
    assert all[k] == e && all[l] == d;
    assert k > l ==> GlobalBefore(d, e);
    ByNameStrict(d, e, d);
    LessStrict(d.spec, e.spec, d.spec);
  }

  /** Whatever is ahead of a listed candidate within its specification is listed, and earlier. */
  lemma AheadIsListed(cut: Cut, texts: Texts, l: nat, j: Implementation, i: Implementation) returns (k: nat)
    requires cut.Valid() && l < |Listed(cut, texts)| && Shows(cut.impls, Listed(cut, texts)[l], j)
    requires var spec := Listed(cut, texts)[l].spec;
             && i in cut.impls && IsCandidate(texts, cut.impls, spec, i)
             && Ahead(texts, cut.impls, spec, i, spec, j)
    ensures k < l && Listed(cut, texts)[k].spec == Listed(cut, texts)[l].spec
    ensures Shows(cut.impls, Listed(cut, texts)[k], i)
  {
    var d := Listed(cut, texts)[l];
    var j' := ListedPlainly(cut, texts, l);
    OneShown(cut.impls, d, j, j');
    var n := AheadRanksBetter(cut, texts, d, j, i);
    BetterOnesToo(cut.specs, cut.impls, cut.Judged(texts), d.spec, n, d.rank - 1);
    k := EarlierInReport(cut, texts, Ranked(d.spec, cut.impls, cut.Judged(texts))[n], l);
  }

  /** So an exact mention is never left out while a candidate of a lower class is listed for its specification. */
  lemma ExactNeverLeftOut(cut: Cut, texts: Texts, l: nat, j: Implementation, i: Implementation) returns (k: nat)
    requires cut.Valid() && l < |Listed(cut, texts)| && Shows(cut.impls, Listed(cut, texts)[l], j)
    requires i in cut.impls
             && Exact(texts, Listed(cut, texts)[l].spec, i) && !Exact(texts, Listed(cut, texts)[l].spec, j)
    ensures k < l && Listed(cut, texts)[k].spec == Listed(cut, texts)[l].spec
    ensures Shows(cut.impls, Listed(cut, texts)[k], i)
  {
    k := AheadIsListed(cut, texts, l, j, i);
  }

  ghost predicate RankListed(cut: Cut, texts: Texts, spec: Id, rank: nat) {
    exists c :: c in Listed(cut, texts) && c.spec == spec && c.rank == rank
  }

  /** With fewer than sixty-four listed, the first eight of a specification are. */
  lemma FirstEightListed(cut: Cut, texts: Texts, spec: Id, m: nat)
    requires cut.Valid() && spec in cut.specs && |Listed(cut, texts)| < 64
    requires m < |Ranked(spec, cut.impls, cut.Judged(texts))| && m < 8
    ensures Ranked(spec, cut.impls, cut.Judged(texts))[m] in Listed(cut, texts)
    ensures RankListed(cut, texts, spec, m + 1)
  {
    var judge := cut.Judged(texts);
    var r, kept := Ranked(spec, cut.impls, judge), KeptOf(spec, cut.impls, judge);
    RankedFacts(spec, cut.impls, judge);
    GlobalFacts(cut.specs, cut.impls, judge);
    PoolFacts(cut.specs, cut.impls, judge);
    assert kept[m] == r[m] && kept[m] in kept;
    assert r[m] in Pool(cut.specs, cut.impls, judge);
    assert Listed(cut, texts) == InGlobalOrder(cut.specs, cut.impls, judge);
  }

  /** So a candidate is then left out only behind eight listed ones of its specification. */
  lemma LeftOutBehindEight(cut: Cut, texts: Texts, spec: Id, i: Implementation, rank: nat)
    requires cut.Valid() && spec in cut.specs && i in cut.impls && IsCandidate(texts, cut.impls, spec, i)
    requires |Listed(cut, texts)| < 64
    requires forall c :: c in Listed(cut, texts) && c.spec == spec ==> !Shows(cut.impls, c, i)
    requires 1 <= rank <= 8
    ensures RankListed(cut, texts, spec, rank)
  {
    var n := CandidateRanked(cut, texts, spec, i);
    if n < 8 {
      FirstEightListed(cut, texts, spec, n);
    }
    FirstEightListed(cut, texts, spec, rank - 1);
  }

  // ----- gaps -----

  /** A name or symbol that several implementations answer to, with all of them in byte order. */
  ghost predicate SharedBy(impls: seq<Implementation>, answers: Implementation -> bool, owners: seq<Id>) {
    && SortedBy(owners, SelfKey) && NoDuplicates(owners) && |owners| >= 2
    && forall id :: id in owners <==> exists i :: i in impls && answers(i) && i.id == id
  }

  /** Why a gap is reported, from the texts alone. */
  ghost predicate GapPlain(texts: Texts, impls: seq<Implementation>, g: Gap) {
    match g.kind
    case AmbiguousQualifiedName =>
      && texts.supported(g.anchor) && texts.mentioned(g.spec, g.anchor)
      && SharedBy(impls, (i: Implementation) => i.qualifiedName == g.anchor, g.owners)
    case AmbiguousSymbol =>
      && g.anchor != "" && texts.standalone(g.spec, g.anchor)
      && SharedBy(impls, (i: Implementation) => texts.supported(i.qualifiedName)
                                                && texts.lastPart(i.qualifiedName) == g.anchor, g.owners)
    case NoEvidence =>
      && g.anchor == "" && g.owners == []
      && forall i :: i in impls ==> !IsCandidate(texts, impls, g.spec, i)
  }

  lemma SameAscending(s: seq<Id>, t: seq<Id>)
    requires SortedBy(s, SelfKey) && NoDuplicates(s) && SortedBy(t, SelfKey) && NoDuplicates(t)
    requires forall x :: x in s <==> x in t
    ensures s == t
  {
    SortedUnique(s, t, SelfKey);
  }

  /** Two owners at least, whichever way they are counted. */
  lemma TableShared(
    impls: seq<Implementation>, anchor: Anchor, answers: Implementation -> bool, x: string, owners: seq<Id>)
    requires DistinctKeys(impls, ImplId) && forall i :: i in impls ==> (answers(i) <==> anchor(i) == Some(x))
    ensures var table := Owners(impls, anchor);
            x in table && |table[x]| >= 2 && owners == table[x] <==> SharedBy(impls, answers, owners)
  {
    var table := Owners(impls, anchor);
    OwnersFacts(impls, anchor, x);
    if x in table {
      TableAnswers(impls, anchor, answers, x);
    }
    if SharedBy(impls, answers, owners) {
      assert owners[0] in owners;
      SameAscending(owners, table[x]);
    }
  }

  lemma TableAnswers(impls: seq<Implementation>, anchor: Anchor, answers: Implementation -> bool, x: string)
    requires DistinctKeys(impls, ImplId) && forall i :: i in impls ==> (answers(i) <==> anchor(i) == Some(x))
    requires x in Owners(impls, anchor)
    ensures forall id :: id in Owners(impls, anchor)[x] <==> exists i :: i in impls && answers(i) && i.id == id
  {
    OwnersFacts(impls, anchor, x);
    forall id
      ensures id in Owners(impls, anchor)[x] <==> exists i :: i in impls && answers(i) && i.id == id
    {
      if id in Owners(impls, anchor)[x] {
        var i :| i in impls && Owns(i, anchor, x, id);
      }
      if i :| i in impls && answers(i) && i.id == id {
        assert Owns(i, anchor, x, id);
      }
    }
  }

  lemma NameShared(texts: Texts, impls: seq<Implementation>, x: string, owners: seq<Id>)
    requires DistinctKeys(impls, ImplId) && texts.supported(x)
    ensures var table := Owners(impls, NameAnchor(texts));
            x in table && |table[x]| >= 2 && owners == table[x] <==>
            SharedBy(impls, (i: Implementation) => i.qualifiedName == x, owners)
  {
    TableShared(impls, NameAnchor(texts), (i: Implementation) => i.qualifiedName == x, x, owners);
  }

  lemma SymbolShared(texts: Texts, impls: seq<Implementation>, x: string, owners: seq<Id>)
    requires DistinctKeys(impls, ImplId) && x != ""
    ensures var table := Owners(impls, SymbolAnchor(texts));
            x in table && |table[x]| >= 2 && owners == table[x] <==>
            SharedBy(impls, (i: Implementation) => texts.supported(i.qualifiedName)
                                                   && texts.lastPart(i.qualifiedName) == x, owners)
  {
    TableShared(impls, SymbolAnchor(texts),
                (i: Implementation) => texts.supported(i.qualifiedName)
                && texts.lastPart(i.qualifiedName) == x, x, owners);
  }

  lemma ReportedPlainly(cut: Cut, texts: Texts, g: Gap)
    requires cut.Valid()
    ensures Reported(texts, cut.Names(texts), cut.Symbols(texts), cut.impls, cut.Judged(texts), g) <==>
            GapPlain(texts, cut.impls, g)
  {
    match g.kind
    case AmbiguousQualifiedName =>
      if texts.supported(g.anchor) {
        NameShared(texts, cut.impls, g.anchor, g.owners);
      }
    case AmbiguousSymbol =>
      if g.anchor != "" {
        SymbolShared(texts, cut.impls, g.anchor, g.owners);
      }
    case NoEvidence =>
      forall i | i in cut.impls
        ensures cut.Judged(texts)(g.spec, i).None? <==> !IsCandidate(texts, cut.impls, g.spec, i)
      {
        JudgedPlainly(texts, cut.impls, g.spec, i);
      }
  }

  /** Exactly these gaps are found: shared names and symbols that are mentioned, and claims nothing answers to. */
  lemma GapsPlainly(cut: Cut, texts: Texts, o: Orders, g: Gap)
    requires cut.Valid() && Iterates(cut, texts, o)
    ensures g in GapsFound(cut, texts, o) <==> g.spec in cut.specs && GapPlain(texts, cut.impls, g)
  {
    GapMeaning(texts, cut.Names(texts), cut.Symbols(texts), o, cut.specs, cut.impls, cut.Judged(texts), g);
    ReportedPlainly(cut, texts, g);
  }

  /** At most 256 gaps are listed, the first in order, and at most 32 ids of what each specification lacks. */
  lemma LimitsPlainly(cut: Cut, texts: Texts, identify: Identify, o: Orders)
    requires cut.Valid() && Iterates(cut, texts, o)
    ensures var r, found := ReportAlong(cut, texts, identify, o), GapsFound(cut, texts, o);
            && r.candidates == Listed(cut, texts) && |r.gaps| <= 256 && r.gaps <= found
            && (r.omittedGaps > 0 ==> |r.gaps| == 256) && |r.gaps| + r.omittedGaps == |found|
            && forall t :: t in r.truncations ==>
                 && |t.listed| <= 32 && (t.unlisted > 0 ==> |t.listed| == 32) && |t.listed| + t.unlisted == t.count
  {
    ReportFacts(cut, texts, identify, o);
  }
}
