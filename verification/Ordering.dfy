/**
 Byte-order comparison of strings, sorting by a string key, and the facts about
 sorted sequences, key indexes and counting that the graph proofs rest on.
 */
module Ordering {

  // ----- string order -----

  predicate Leq(a: string, b: string) {
    a == "" || (b != "" && (a[0] < b[0] || (a[0] == b[0] && Leq(a[1..], b[1..]))))
  }

  predicate Less(a: string, b: string) {
    a != b && Leq(a, b)
  }

  lemma {:induction false} LeqTotal(a: string, b: string)
    ensures Leq(a, b) || Leq(b, a)
    ensures Leq(a, a)
  {
    if a != "" {
      LeqTotal(a[1..], if b == "" then b else b[1..]);
    }
  }

  lemma {:induction false} LeqAntisymmetric(a: string, b: string)
    requires Leq(a, b) && Leq(b, a)
    ensures a == b
  {
    if a != "" && b != "" {
      LeqAntisymmetric(a[1..], b[1..]);
      assert a == [a[0]] + a[1..] && b == [b[0]] + b[1..];
    }
  }

  lemma {:induction false} LeqTransitive(a: string, b: string, c: string)
    requires Leq(a, b) && Leq(b, c)
    ensures Leq(a, c)
  {
    if a != "" && a[0] == b[0] == c[0] {
      LeqTransitive(a[1..], b[1..], c[1..]);
    }
  }

  /** A common prefix does not affect the order. */
  lemma {:induction false} LeqPrefixed(p: string, a: string, b: string)
    ensures Leq(p + a, p + b) <==> Leq(a, b)
  {
    if p == "" {
      assert p + a == a && p + b == b;
    } else {
      LeqPrefixed(p[1..], a, b);
      assert (p + a)[1..] == p[1..] + a && (p + b)[1..] == p[1..] + b;
    }
  }

  // ----- sequences without repetition -----

  predicate NoDuplicates<T(==)>(s: seq<T>) {
    forall i, j :: 0 <= i < j < |s| ==> s[i] != s[j]
  }

  function Elements<T>(s: seq<T>): set<T> {
    set x | x in s
  }

  lemma ElementsAppend<T>(s: seq<T>, x: T)
    ensures Elements(s + [x]) == Elements(s) + {x}
  {
  }

  lemma AppendDistinct<T>(s: seq<T>, x: T)
    requires NoDuplicates(s) && x !in s
    ensures NoDuplicates(s + [x])
  {
  }

  lemma {:induction false} NoDuplicatesSize<T>(s: seq<T>)
    ensures |Elements(s)| <= |s|
    ensures NoDuplicates(s) <==> |Elements(s)| == |s|
  {
    if s == [] {
      assert Elements(s) == {};
    } else {
      var front, last := s[..|s| - 1], s[|s| - 1];
      NoDuplicatesSize(front);
      assert s == front + [last];
      assert Elements(s) == Elements(front) + {last};
      if last in front {
        assert Elements(s) == Elements(front);
      }
      if NoDuplicates(s) {
        assert NoDuplicates(front) && last !in front;
      } else if NoDuplicates(front) {
        assert last in front;
      }
    }
  }

  lemma {:induction false} SubsetSize<T>(a: set<T>, b: set<T>)
    requires a <= b
    ensures |a| <= |b|
    decreases a
  {
    if x :| x in a {
      SubsetSize(a - {x}, b - {x});
    }
  }

  lemma SameSizeSubset<T>(a: set<T>, b: set<T>)
    requires a <= b && |a| == |b|
    ensures a == b
  {
    if a != b {
      var x :| x in b && x !in a;
      SubsetSize(a, b - {x});
    }
  }

  /** Counting the distinct references made is the same as checking that every id is referenced. */
  lemma CountingCovers<T>(used: set<T>, ids: seq<T>)
    requires NoDuplicates(ids) && used <= Elements(ids)
    ensures |used| == |ids| <==> forall x :: x in ids ==> x in used
  {
    NoDuplicatesSize(ids);
    if |used| == |ids| {
      SameSizeSubset(used, Elements(ids));
    } else {
      assert used != Elements(ids);
    }
  }

  // ----- keyed records -----

  function Mapped<T, K>(s: seq<T>, key: T -> K): (keys: seq<K>)
    ensures |keys| == |s|
    ensures forall i :: 0 <= i < |s| ==> keys[i] == key(s[i])
  {
    seq(|s|, i requires 0 <= i < |s| => key(s[i]))
  }

  /** The ids that these records refer to. */
  function Refs<T, K>(s: seq<T>, ref: T -> K): set<K> {
    Elements(Mapped(s, ref))
  }

  lemma RefsMembers<T, K>(s: seq<T>, ref: T -> K)
    ensures forall x :: x in s ==> ref(x) in Refs(s, ref)
    ensures forall k :: k in Refs(s, ref) ==> exists x :: x in s && ref(x) == k
  {
    DistinctKeysAsKeys(s, ref);
  }

  lemma RefsStep<T, K>(s: seq<T>, i: nat, ref: T -> K)
    requires i < |s|
    ensures s[..i + 1] == s[..i] + [s[i]]
    ensures Refs(s[..i + 1], ref) == Refs(s[..i], ref) + {ref(s[i])}
  {
    assert Mapped(s[..i + 1], ref) == Mapped(s[..i], ref) + [ref(s[i])];
  }

  ghost predicate DistinctKeys<T, K>(s: seq<T>, key: T -> K) {
    forall i, j :: 0 <= i < j < |s| ==> key(s[i]) != key(s[j])
  }

  /** The last record under each key, as filling a map in order leaves it. */
  function Index<T, K>(s: seq<T>, key: T -> K): map<K, T> {
    if s == [] then map[] else Index(s[..|s| - 1], key)[key(s[|s| - 1]) := s[|s| - 1]]
  }

  lemma {:induction false} IndexKeys<T, K>(s: seq<T>, key: T -> K)
    ensures forall k :: k in Index(s, key) ==> Index(s, key)[k] in s && key(Index(s, key)[k]) == k
    ensures forall x :: x in s ==> key(x) in Index(s, key)
    ensures DistinctKeys(s, key) ==> forall x :: x in s ==> Index(s, key)[key(x)] == x
  {
    if s != [] {
      var front, last := s[..|s| - 1], s[|s| - 1];
      IndexKeys(front, key);
      assert s == front + [last];
      if DistinctKeys(s, key) {
        assert DistinctKeys(front, key);
        forall x | x in front
          ensures key(x) != key(last)
        {
          var i :| 0 <= i < |front| && front[i] == x;
          assert s[i] == x;
        }
      }
    }
  }

  /** With distinct keys the index depends only on which records are present. */
  lemma IndexByMembers<T, K>(s: seq<T>, t: seq<T>, key: T -> K)
    requires DistinctKeys(s, key) && DistinctKeys(t, key)
    requires forall x :: x in s <==> x in t
    ensures Index(s, key) == Index(t, key)
  {
    IndexKeys(s, key);
    IndexKeys(t, key);
  }

  // ----- sorting -----

  function Insert<T>(x: T, s: seq<T>, key: T -> string): seq<T> {
    if s == [] || Leq(key(x), key(s[0])) then [x] + s else [s[0]] + Insert(x, s[1..], key)
  }

  /** Any sort by this key agrees with this one when keys are distinct: see SortedUnique. */
  function SortBy<T>(s: seq<T>, key: T -> string): seq<T> {
    if s == [] then [] else Insert(s[0], SortBy(s[1..], key), key)
  }

  ghost predicate SortedBy<T>(s: seq<T>, key: T -> string) {
    forall i, j :: 0 <= i < j < |s| ==> Leq(key(s[i]), key(s[j]))
  }

  lemma {:induction false} InsertFacts<T>(x: T, s: seq<T>, key: T -> string)
    requires SortedBy(s, key)
    ensures SortedBy(Insert(x, s, key), key)
    ensures multiset(Insert(x, s, key)) == multiset(s) + multiset{x}
  {
    var r := Insert(x, s, key);
    if s == [] {
    } else if Leq(key(x), key(s[0])) {
      forall j | 1 <= j < |r|
        ensures Leq(key(x), key(r[j]))
      {
        LeqTransitive(key(x), key(s[0]), key(s[j - 1])) by {
          LeqTotal(key(s[0]), key(s[0]));
        }
      }
    } else {
      LeqTotal(key(x), key(s[0]));
      var rest := Insert(x, s[1..], key);
      InsertFacts(x, s[1..], key);
      assert s == [s[0]] + s[1..];
      forall j | 0 <= j < |rest|
        ensures Leq(key(s[0]), key(rest[j]))
      {
        assert rest[j] in multiset(rest);
        assert rest[j] == x || rest[j] in s[1..];
      }
    }
  }

  lemma {:induction false} SortFacts<T>(s: seq<T>, key: T -> string)
    ensures SortedBy(SortBy(s, key), key)
    ensures multiset(SortBy(s, key)) == multiset(s)
    ensures |SortBy(s, key)| == |s|
    ensures forall x :: x in SortBy(s, key) <==> x in s
  {
    if s != [] {
      SortFacts(s[1..], key);
      InsertFacts(s[0], SortBy(s[1..], key), key);
      assert s == [s[0]] + s[1..];
    }
    PermutationFacts(SortBy(s, key), s);
  }

  lemma PermutationFacts<T>(s: seq<T>, t: seq<T>)
    requires multiset(s) == multiset(t)
    ensures |s| == |t|
    ensures forall x :: x in s <==> x in t
  {
    assert |multiset(s)| == |s| && |multiset(t)| == |t|;
    forall x
      ensures x in s <==> x in t
    {
      assert x in s <==> x in multiset(s);
      assert x in t <==> x in multiset(t);
    }
  }

  lemma DistinctKeysAsKeys<T, K>(s: seq<T>, key: T -> K)
    ensures DistinctKeys(s, key) <==> NoDuplicates(Mapped(s, key))
    ensures DistinctKeys(s, key) <==> |Elements(Mapped(s, key))| == |s|
    ensures forall x :: x in s ==> key(x) in Mapped(s, key)
    ensures forall k :: k in Mapped(s, key) ==> exists x :: x in s && key(x) == k
  {
    NoDuplicatesSize(Mapped(s, key));
    forall x | x in s
      ensures key(x) in Mapped(s, key)
    {
      var i :| 0 <= i < |s| && s[i] == x;
      assert Mapped(s, key)[i] == key(x);
    }
    forall k | k in Mapped(s, key)
      ensures exists x :: x in s && key(x) == k
    {
      var i :| 0 <= i < |s| && Mapped(s, key)[i] == k;
      assert s[i] in s && key(s[i]) == k;
    }
  }

  lemma DistinctKeysPermuted<T>(s: seq<T>, t: seq<T>, key: T -> string)
    requires multiset(s) == multiset(t) && DistinctKeys(s, key)
    ensures DistinctKeys(t, key)
  {
    PermutationFacts(s, t);
    DistinctKeysAsKeys(s, key);
    DistinctKeysAsKeys(t, key);
    assert Elements(Mapped(s, key)) == Elements(Mapped(t, key));
  }

  /** Two sorted arrangements of the same records are identical when no key repeats. */
  lemma {:induction false} SortedUnique<T>(s: seq<T>, t: seq<T>, key: T -> string)
    requires SortedBy(s, key) && SortedBy(t, key) && DistinctKeys(s, key) && DistinctKeys(t, key)
    requires forall x :: x in s <==> x in t
    ensures s == t
  {
    assert s == [] || s[0] in s;
    assert t == [] || t[0] in t;
    if s != [] && t != [] {
      SameHead(s, t, key);
      assert s == [s[0]] + s[1..] && t == [t[0]] + t[1..];
      assert s[0] !in s[1..] && t[0] !in t[1..];
      forall x
        ensures x in s[1..] <==> x in t[1..]
      {
        assert x in s[1..] <==> x in s && x != s[0];
        assert x in t[1..] <==> x in t && x != t[0];
      }
      SortedUnique(s[1..], t[1..], key);
    }
  }

  lemma SameHead<T>(s: seq<T>, t: seq<T>, key: T -> string)
    requires s != [] && t != [] && SortedBy(s, key) && SortedBy(t, key) && DistinctKeys(s, key)
    requires s[0] in t && t[0] in s
    ensures s[0] == t[0]
  {
    var m :| 0 <= m < |t| && t[m] == s[0];
    var n :| 0 <= n < |s| && s[n] == t[0];
    LeqTotal(key(s[0]), key(t[0]));
    LeqTotal(key(t[0]), key(s[0]));
    if n > 0 {
      assert Leq(key(s[0]), key(s[n]));
      assert m > 0 ==> Leq(key(t[0]), key(t[m]));
      LeqAntisymmetric(key(s[0]), key(t[0]));
    }
  }

  lemma SortCanonical<T>(s: seq<T>, t: seq<T>, key: T -> string)
    requires multiset(s) == multiset(t) && DistinctKeys(s, key)
    ensures SortBy(s, key) == SortBy(t, key)
  {
    SortFacts(s, key);
    SortFacts(t, key);
    DistinctKeysPermuted(s, SortBy(s, key), key);
    DistinctKeysPermuted(s, SortBy(t, key), key);
    PermutationFacts(s, t);
    SortedUnique(SortBy(s, key), SortBy(t, key), key);
  }

  /** Sorting leaves a sorted sequence alone, whether or not keys repeat. */
  lemma {:induction false} SortOfSorted<T>(s: seq<T>, key: T -> string)
    requires SortedBy(s, key)
    ensures SortBy(s, key) == s
  {
    if s != [] {
      SortOfSorted(s[1..], key);
      assert s == [s[0]] + s[1..];
    }
  }

  // ----- rewriting records without changing their keys -----

  lemma {:induction false} InsertMapped<T>(x: T, s: seq<T>, key: T -> string, f: T -> T)
    requires forall y :: key(f(y)) == key(y)
    ensures Insert(f(x), Mapped(s, f), key) == Mapped(Insert(x, s, key), f)
  {
    if s != [] && !Leq(key(x), key(s[0])) {
      InsertMapped(x, s[1..], key, f);
      assert Mapped(s, f)[1..] == Mapped(s[1..], f);
    }
  }

  /** Sorting records and rewriting them commute when the rewrite keeps keys. */
  lemma {:induction false} SortMapped<T>(s: seq<T>, key: T -> string, f: T -> T)
    requires forall y :: key(f(y)) == key(y)
    ensures SortBy(Mapped(s, f), key) == Mapped(SortBy(s, key), f)
  {
    if s != [] {
      SortMapped(s[1..], key, f);
      assert Mapped(s, f)[1..] == Mapped(s[1..], f);
      InsertMapped(s[0], SortBy(s[1..], key), key, f);
    }
  }

  lemma MappedKeys<T>(s: seq<T>, key: T -> string, f: T -> T)
    requires forall y :: key(f(y)) == key(y)
    ensures DistinctKeys(Mapped(s, f), key) <==> DistinctKeys(s, key)
    ensures forall x :: x in s ==> f(x) in Mapped(s, f)
    ensures forall y :: y in Mapped(s, f) ==> exists x :: x in s && f(x) == y
  {
    DistinctKeysAsKeys(s, f);
    var t := Mapped(s, f);
    assert forall i :: 0 <= i < |s| ==> key(t[i]) == key(s[i]);
    if DistinctKeys(t, key) {
      forall i, j | 0 <= i < j < |s|
        ensures key(s[i]) != key(s[j])
      {
        assert key(t[i]) != key(t[j]);
      }
    }
  }

  lemma {:induction false} IndexMapped<T>(s: seq<T>, key: T -> string, f: T -> T)
    requires forall y :: key(f(y)) == key(y)
    ensures Index(Mapped(s, f), key).Keys == Index(s, key).Keys
    ensures forall k :: k in Index(s, key) ==> Index(Mapped(s, f), key)[k] == f(Index(s, key)[k])
  {
    if s != [] {
      var n := |s| - 1;
      IndexMapped(s[..n], key, f);
      assert Mapped(s, f)[..n] == Mapped(s[..n], f);
    }
  }

  function SelfKey(s: string): string { s }

  /** Sorting plain strings, where repeats are indistinguishable. */
  function Sorted(s: seq<string>): seq<string> {
    SortBy(s, SelfKey)
  }

  /** The ids of a set in byte order, as an ordered query returns them. */
  method SortedIds(ids: set<string>) returns (sorted: seq<string>)
    ensures SortedBy(sorted, SelfKey) && NoDuplicates(sorted) && Elements(sorted) == ids
  {
    sorted := [];
    var rest := ids;
    while rest != {}
      invariant SortedBy(sorted, SelfKey) && NoDuplicates(sorted)
      invariant rest <= ids && Elements(sorted) == ids - rest
      decreases rest
    {
      var id :| id in rest;
      InsertDistinct(id, sorted);
      sorted := Insert(id, sorted, SelfKey);
      rest := rest - {id};
    }
  }

  lemma InsertDistinct(x: string, s: seq<string>)
    requires SortedBy(s, SelfKey) && NoDuplicates(s) && x !in s
    ensures var r := Insert(x, s, SelfKey); SortedBy(r, SelfKey) && NoDuplicates(r) && Elements(r) == Elements(s) + {x}
  {
    var r := Insert(x, s, SelfKey);
    InsertFacts(x, s, SelfKey);
    assert multiset(r) == multiset(s + [x]);
    PermutationFacts(r, s + [x]);
    NoDuplicatesSize(s + [x]);
    NoDuplicatesSize(r);
    assert Elements(r) == Elements(s + [x]);
    assert Elements(s + [x]) == Elements(s) + {x};
  }

  lemma SortedOnce(ids: seq<string>)
    requires NoDuplicates(ids)
    ensures var s := SortBy(ids, SelfKey); SortedBy(s, SelfKey) && NoDuplicates(s) && Elements(s) == Elements(ids)
  {
    SortFacts(ids, SelfKey);
    NoDuplicatesSize(ids);
    NoDuplicatesSize(SortBy(ids, SelfKey));
    assert Elements(SortBy(ids, SelfKey)) == Elements(ids);
  }
}
