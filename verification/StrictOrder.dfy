/**
 Sorting by a comparison that tells any two members apart.
 */
module StrictOrder {
  import opened Ordering

  /** A strict order that tells any two different members apart. */
  ghost predicate Strict<T>(before: (T, T) -> bool, s: seq<T>) {
    && (forall a, b :: a in s && b in s ==> a == b || before(a, b) || before(b, a))
    && (forall a, b :: a in s && b in s && before(a, b) ==> !before(b, a))
    && (forall a, b, c :: a in s && b in s && c in s && before(a, b) && before(b, c) ==> before(a, c))
  }

  ghost predicate Ordered<T>(before: (T, T) -> bool, s: seq<T>) {
    forall i, j :: 0 <= i < j < |s| ==> before(s[i], s[j])
  }

  lemma LessStrict(a: string, b: string, c: string)
    ensures a == b || Less(a, b) || Less(b, a)
    ensures !(Less(a, b) && Less(b, a))
    ensures Less(a, b) && Less(b, c) ==> Less(a, c)
  {
    LeqTotal(a, b);
    if Leq(a, b) && Leq(b, a) {
      LeqAntisymmetric(a, b);
    }
    if Less(a, b) && Less(b, c) {
      LeqTransitive(a, b, c);
      if a == c {
        LeqAntisymmetric(a, b);
      }
    }
  }

  // ----- sorting by an order -----

  function Place<T>(x: T, s: seq<T>, before: (T, T) -> bool): seq<T> {
    if s == [] || before(x, s[0]) then [x] + s else [s[0]] + Place(x, s[1..], before)
  }

  function Arranged<T>(s: seq<T>, before: (T, T) -> bool): seq<T> {
    if s == [] then [] else Place(s[0], Arranged(s[1..], before), before)
  }

  lemma {:induction false} PlaceMembers<T>(x: T, s: seq<T>, before: (T, T) -> bool)
    ensures multiset(Place(x, s, before)) == multiset(s) + multiset{x}
    ensures forall c :: c in Place(x, s, before) ==> c == x || c in s
    ensures x in Place(x, s, before) && forall c :: c in s ==> c in Place(x, s, before)
  {
    if s != [] && !before(x, s[0]) {
      PlaceMembers(x, s[1..], before);
      assert s == [s[0]] + s[1..];
    }
  }

  lemma {:induction false} PlaceOrdered<T>(x: T, s: seq<T>, all: seq<T>, before: (T, T) -> bool)
    requires Strict(before, all) && x in all && x !in s && Ordered(before, s) && forall c :: c in s ==> c in all
    ensures Ordered(before, Place(x, s, before))
  {
    if s != [] {
      assert s[0] in s;
      if before(x, s[0]) {
        forall j | 0 <= j < |s|
          ensures before(x, s[j])
        {
          assert s[j] in s && (j == 0 || before(s[0], s[j]));
        }
      } else {
        PlaceOrdered(x, s[1..], all, before);
        PlaceMembers(x, s[1..], before);
        var rest := Place(x, s[1..], before);
        forall j | 0 <= j < |rest|
          ensures before(s[0], rest[j])
        {
          assert rest[j] in rest;
          assert rest[j] == x || rest[j] in s[1..];
          if rest[j] != x {
            var k :| 1 <= k < |s| && s[k] == rest[j];
          }
        }
      }
    }
  }

  lemma {:induction false} ArrangedFacts<T>(s: seq<T>, all: seq<T>, before: (T, T) -> bool)
    requires Strict(before, all) && NoDuplicates(s) && forall c :: c in s ==> c in all
    ensures Ordered(before, Arranged(s, before))
    ensures multiset(Arranged(s, before)) == multiset(s) && |Arranged(s, before)| == |s|
    ensures forall c :: c in Arranged(s, before) ==> c in s
    ensures forall c :: c in s ==> c in Arranged(s, before)
  {
    if s != [] {
      assert NoDuplicates(s[1..]);
      ArrangedFacts(s[1..], all, before);
      assert s[0] !in s[1..];
      PlaceOrdered(s[0], Arranged(s[1..], before), all, before);
      PlaceMembers(s[0], Arranged(s[1..], before), before);
      assert s == [s[0]] + s[1..];
    }
    PermutationFacts(Arranged(s, before), s);
  }

  lemma OrderedNoDuplicates<T>(s: seq<T>, before: (T, T) -> bool)
    requires Ordered(before, s) && forall c :: c in s ==> !before(c, c)
    ensures NoDuplicates(s)
  {
    forall i, j | 0 <= i < j < |s|
      ensures s[i] != s[j]
    {
      assert before(s[i], s[j]) && s[i] in s;
    }
  }
}
