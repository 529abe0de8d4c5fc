/**
 The migration ledger: applied migrations are always a checksum-matching prefix of the
 embedded list, each script runs at most once and in order, and failed runs leave nothing.
 */
module MigrationLedger {
  import opened Outcomes
  import opened Ordering

  datatype Migration = Migration(name: string, checksum: string, required: seq<string>, creates: set<string>)

  function NameOf(m: Migration): string { m.name }

  /** The stored ledger, the tables that exist, and a record of the scripts that were run. */
  datatype Database = Database(ledger: map<string, string>, tables: set<string>, executed: seq<string>)

  function LedgerOf(ms: seq<Migration>): map<string, string> {
    if ms == [] then map[] else LedgerOf(ms[..|ms| - 1])[ms[|ms| - 1].name := ms[|ms| - 1].checksum]
  }

  function Created(ms: seq<Migration>): set<string> {
    if ms == [] then {} else Created(ms[..|ms| - 1]) + ms[|ms| - 1].creates
  }

  ghost predicate Named(ms: seq<Migration>) {
    DistinctKeys(ms, NameOf)
  }

  lemma {:induction false} LedgerMembers(ms: seq<Migration>)
    requires Named(ms)
    ensures forall i :: 0 <= i < |ms| ==> ms[i].name in LedgerOf(ms) && LedgerOf(ms)[ms[i].name] == ms[i].checksum
    ensures forall n :: n in LedgerOf(ms) ==> exists i :: 0 <= i < |ms| && ms[i].name == n
  {
    if ms != [] {
      var front, last := ms[..|ms| - 1], ms[|ms| - 1];
      assert Named(front);
      LedgerMembers(front);
      forall i | 0 <= i < |ms|
        ensures ms[i].name in LedgerOf(ms) && LedgerOf(ms)[ms[i].name] == ms[i].checksum
      {
        if i < |front| {
          assert front[i] == ms[i] && NameOf(ms[i]) != NameOf(last);
        }
      }
      forall n | n in LedgerOf(ms)
        ensures exists i :: 0 <= i < |ms| && ms[i].name == n
      {
        if n in LedgerOf(front) {
          var i :| 0 <= i < |front| && front[i].name == n;
          assert ms[i].name == n;
        }
      }
    }
  }

  lemma NamedPrefix(ms: seq<Migration>, k: nat)
    requires Named(ms) && k <= |ms|
    ensures Named(ms[..k])
  {
  }

  /** In the ledger of a prefix exactly the prefix's names occur. */
  lemma PrefixMembers(ms: seq<Migration>, k: nat, i: nat)
    requires Named(ms) && k <= |ms| && i < |ms|
    ensures ms[i].name in LedgerOf(ms[..k]) <==> i < k
    ensures i < k ==> LedgerOf(ms[..k])[ms[i].name] == ms[i].checksum
  {
    NamedPrefix(ms, k);
    LedgerMembers(ms[..k]);
    if i < k {
      assert ms[..k][i] == ms[i];
    } else {
      forall j | 0 <= j < k
        ensures ms[..k][j].name != ms[i].name
      {
        assert NameOf(ms[j]) != NameOf(ms[i]);
      }
    }
  }

  // ----- the ledger check -----

  ghost predicate MatchesPrefix(applied: map<string, string>, ms: seq<Migration>, k: nat) {
    k <= |ms| && applied == LedgerOf(ms[..k])
  }

  /** Accepts exactly the checksum-matching prefixes of the embedded list. */
  method ValidateApplied(ms: seq<Migration>, applied: map<string, string>) returns (ok: bool, ghost k: nat)
    requires Named(ms)
    ensures ok <==> exists n: nat :: MatchesPrefix(applied, ms, n)
    ensures ok ==> MatchesPrefix(applied, ms, k)
  {
    var known := Index(ms, NameOf);
    IndexKeys(ms, NameOf);
    k := 0;
    var rest := applied.Keys;
    while rest != {}
      invariant rest <= applied.Keys
      invariant forall n :: n in applied.Keys - rest ==> n in known && applied[n] == known[n].checksum
      decreases rest
    {
      var n :| n in rest;
      if n !in known || applied[n] != known[n].checksum {
        UnknownIsNoPrefix(ms, applied, n);
        return false, 0;
      }
      rest := rest - {n};
    }
    var missingSeen := false;
    for i := 0 to |ms|
      invariant k <= i && (missingSeen <==> k < i)
      invariant forall j :: 0 <= j < k ==> ms[j].name in applied
      invariant forall j :: k <= j < i ==> ms[j].name !in applied
    {
      if ms[i].name !in applied {
        missingSeen := true;
        continue;
      }
      if missingSeen {
        GapIsNoPrefix(ms, applied, k, i);
        return false, 0;
      }
      k := k + 1;
    }
    KnownPrefix(ms, applied, k);
    return true, k;
  }

  lemma UnknownIsNoPrefix(ms: seq<Migration>, applied: map<string, string>, n: string)
    requires Named(ms) && n in applied
    requires n !in Index(ms, NameOf) || applied[n] != Index(ms, NameOf)[n].checksum
    ensures forall k: nat :: !MatchesPrefix(applied, ms, k)
  {
    IndexKeys(ms, NameOf);
    forall k | 0 <= k <= |ms|
      ensures applied != LedgerOf(ms[..k])
    {
      NamedPrefix(ms, k);
      LedgerMembers(ms[..k]);
      if n in LedgerOf(ms[..k]) {
        var i :| 0 <= i < k && ms[..k][i].name == n;
        assert ms[i] in ms && NameOf(ms[i]) == n;
        assert LedgerOf(ms[..k])[ms[..k][i].name] == ms[i].checksum;
      }
    }
  }

  lemma GapIsNoPrefix(ms: seq<Migration>, applied: map<string, string>, gap: nat, i: nat)
    requires Named(ms) && gap < i < |ms| && ms[gap].name !in applied && ms[i].name in applied
    ensures forall k: nat :: !MatchesPrefix(applied, ms, k)
  {
    forall k | 0 <= k <= |ms|
      ensures applied != LedgerOf(ms[..k])
    {
      PrefixMembers(ms, k, gap);
      PrefixMembers(ms, k, i);
    }
  }

  lemma KnownPrefix(ms: seq<Migration>, applied: map<string, string>, k: nat)
    requires Named(ms) && k <= |ms|
    requires forall n :: n in applied ==> n in Index(ms, NameOf) && applied[n] == Index(ms, NameOf)[n].checksum
    requires forall j :: 0 <= j < k ==> ms[j].name in applied
    requires forall j :: k <= j < |ms| ==> ms[j].name !in applied
    ensures MatchesPrefix(applied, ms, k)
  {
    forall n | n in applied
      ensures n in LedgerOf(ms[..k]) && LedgerOf(ms[..k])[n] == applied[n]
    {
      AppliedInPrefix(ms, applied, k, n);
    }
    forall n | n in LedgerOf(ms[..k])
      ensures n in applied
    {
      PrefixApplied(ms, applied, k, n);
    }
  }

  lemma AppliedInPrefix(ms: seq<Migration>, applied: map<string, string>, k: nat, n: string)
    requires Named(ms) && k <= |ms| && n in applied
    requires n in Index(ms, NameOf) && applied[n] == Index(ms, NameOf)[n].checksum
    requires forall j :: k <= j < |ms| ==> ms[j].name !in applied
    ensures n in LedgerOf(ms[..k]) && LedgerOf(ms[..k])[n] == applied[n]
  {
    IndexKeys(ms, NameOf);
    var m := Index(ms, NameOf)[n];
    var i :| 0 <= i < |ms| && ms[i] == m;
    PrefixMembers(ms, k, i);
  }

  lemma PrefixApplied(ms: seq<Migration>, applied: map<string, string>, k: nat, n: string)
    requires Named(ms) && k <= |ms| && n in LedgerOf(ms[..k])
    requires forall j :: 0 <= j < k ==> ms[j].name in applied
    ensures n in applied
  {
    NamedPrefix(ms, k);
    LedgerMembers(ms[..k]);
    var i :| 0 <= i < k && ms[..k][i].name == n;
    assert ms[i].name in applied;
  }

  // ----- bootstrap -----

  predicate FullyPresent(m: Migration, tables: set<string>) {
    m.required != [] && forall i :: 0 <= i < |m.required| ==> m.required[i] in tables
  }

  predicate Absent(m: Migration, tables: set<string>) {
    forall i :: 0 <= i < |m.required| ==> m.required[i] !in tables
  }

  /** A schema from before the ledger: a prefix of migrations whose tables all exist, and none after it. */
  ghost predicate Bootstrapped(ms: seq<Migration>, tables: set<string>, k: nat) {
    && k <= |ms|
    && (forall i :: 0 <= i < k ==> FullyPresent(ms[i], tables))
    && (forall i :: k <= i < |ms| ==> Absent(ms[i], tables))
  }

  method ExistingTableCount(tables: set<string>, required: seq<string>) returns (count: nat)
    ensures count == 0 <==> forall i :: 0 <= i < |required| ==> required[i] !in tables
    ensures count == |required| <==> forall i :: 0 <= i < |required| ==> required[i] in tables
  {
    count := 0;
    for i := 0 to |required|
      invariant count <= i
      invariant count == 0 <==> forall j :: 0 <= j < i ==> required[j] !in tables
      invariant count == i <==> forall j :: 0 <= j < i ==> required[j] in tables
    {
      if required[i] in tables {
        count := count + 1;
      }
    }
  }

  lemma BootstrapUnique(ms: seq<Migration>, tables: set<string>, j: nat, k: nat)
    requires Bootstrapped(ms, tables, j) && Bootstrapped(ms, tables, k)
    ensures j == k
  {
    if j < k {
      NotBoth(ms[j], tables);
    } else if k < j {
      NotBoth(ms[k], tables);
    }
  }

  lemma NotBoth(m: Migration, tables: set<string>)
    ensures !(FullyPresent(m, tables) && Absent(m, tables))
  {
    if m.required != [] {
      assert m.required[0] in tables || m.required[0] !in tables;
    }
  }

  /** Records the migrations whose tables are already there, which must be a prefix. */
  method Bootstrap(ms: seq<Migration>, tables: set<string>) returns (r: Option<map<string, string>>, ghost k: nat)
    ensures r.Some? <==> exists n: nat :: Bootstrapped(ms, tables, n)
    ensures r.Some? ==> Bootstrapped(ms, tables, k) && r.value == LedgerOf(ms[..k])
  {
    var ledger: map<string, string> := map[];
    var missingSeen := false;
    k := 0;
    for i := 0 to |ms|
      invariant k <= i && (missingSeen <==> k < i)
      invariant ledger == LedgerOf(ms[..k])
      invariant forall j :: 0 <= j < k ==> FullyPresent(ms[j], tables)
      invariant forall j :: k <= j < i ==> Absent(ms[j], tables)
    {
      var existing := ExistingTableCount(tables, ms[i].required);
      if existing == 0 {
        missingSeen := true;
        continue;
      }
      if existing != |ms[i].required| || missingSeen {
        NotBootstrapped(ms, tables, k, i);
        return None, 0;
      }
      assert ms[..i + 1][..i] == ms[..i];
      ledger := ledger[ms[i].name := ms[i].checksum];
      k := k + 1;
    }
    assert Bootstrapped(ms, tables, k);
    return Some(ledger), k;
  }

  lemma NotBootstrapped(ms: seq<Migration>, tables: set<string>, k: nat, i: nat)
    requires k <= i < |ms| && !Absent(ms[i], tables)
    requires !FullyPresent(ms[i], tables) || (k < i && Absent(ms[k], tables))
    ensures forall n: nat :: !Bootstrapped(ms, tables, n)
  {
    forall n: nat | Bootstrapped(ms, tables, n)
      ensures i < n && FullyPresent(ms[i], tables)
    {
    }
    NotBoth(ms[k], tables);
  }

  // ----- a run -----

  /** Where a run of this list starts: at the ledger's prefix, or at what bootstrap finds. */
  ghost predicate StartsAt(db: Database, ms: seq<Migration>, k: nat) {
    if db.ledger == map[] then Bootstrapped(ms, db.tables, k) else MatchesPrefix(db.ledger, ms, k)
  }

  function Names(ms: seq<Migration>): seq<string> {
    Mapped(ms, NameOf)
  }

  function Completed(db: Database, ms: seq<Migration>, k: nat): Database
    requires k <= |ms|
  {
    Database(LedgerOf(ms), db.tables + Created(ms[k..]), db.executed + Names(ms[k..]))
  }

  /** The run has a start, no missing script fails, and the required tables are there at the end. */
  ghost predicate Succeeds(db: Database, ms: seq<Migration>, failing: set<string>, required: set<string>) {
    exists k: nat ::
      && StartsAt(db, ms, k) && (forall i :: k <= i < |ms| ==> ms[i].name !in failing)
      && required <= Completed(db, ms, k).tables
  }

  /** The database once the scripts before place i have run. */
  function Partway(db: Database, ms: seq<Migration>, k: nat, i: nat): Database
    requires k <= i <= |ms|
  {
    Database(LedgerOf(ms[..i]), db.tables + Created(ms[k..i]), db.executed + Names(ms[k..i]))
  }

  lemma PartwayStep(db: Database, ms: seq<Migration>, k: nat, i: nat)
    requires k <= i < |ms|
    ensures var d := Partway(db, ms, k, i);
            Partway(db, ms, k, i + 1) ==
            Database(d.ledger[ms[i].name := ms[i].checksum], d.tables + ms[i].creates, d.executed + [ms[i].name])
  {
    SliceStep(ms, k, i);
  }

  lemma SliceStep(ms: seq<Migration>, k: nat, i: nat)
    requires k <= i < |ms|
    ensures LedgerOf(ms[..i + 1]) == LedgerOf(ms[..i])[ms[i].name := ms[i].checksum]
    ensures Created(ms[k..i + 1]) == Created(ms[k..i]) + ms[i].creates
    ensures Names(ms[k..i + 1]) == Names(ms[k..i]) + [ms[i].name]
  {
    assert ms[..i + 1][..i] == ms[..i];
    assert ms[k..i + 1][..i - k] == ms[k..i];
  }

  class Schema {
    var db: Database

    constructor (db: Database)
      ensures this.db == db
    {
      this.db := db;
    }

    /** Scripts after the ledger's prefix, each recorded as it is run. */
    method RunMissing(ms: seq<Migration>, ghost k: nat, failing: set<string>) returns (ok: bool, changed: bool)
      requires Named(ms) && MatchesPrefix(db.ledger, ms, k)
      modifies this
      ensures ok <==> forall i :: k <= i < |ms| ==> ms[i].name !in failing
      ensures ok ==> db == Completed(old(db), ms, k) && (changed <==> k < |ms|)
    {
      ghost var start := db;
      changed := false;
      for i := 0 to |ms|
        invariant i <= k ==> db == start && !changed
        invariant k <= i ==> (changed <==> k < i)
        invariant k <= i ==> db == Partway(start, ms, k, i)
        invariant forall j :: k <= j < i ==> ms[j].name !in failing
      {
        PrefixMembers(ms, if i < k then k else i, i);
        if ms[i].name in db.ledger {
          continue;
        }
        if ms[i].name in failing {
          return false, changed;
        }
        PartwayStep(start, ms, k, i);
        db := Database(db.ledger[ms[i].name := ms[i].checksum], db.tables + ms[i].creates, db.executed + [ms[i].name]);
        changed := true;
      }
      assert ms[..|ms|] == ms && ms[k..|ms|] == ms[k..];
      return true, changed;
    }

    /**
     One transaction over the embedded list. `failing` are the scripts that would raise an
     error; `required` are the tables checked at the end.
     */
    method ApplyUp(ms: seq<Migration>, failing: set<string>, required: set<string>) returns (r: Option<bool>)
      requires Named(ms)
      modifies this
      ensures r.None? ==> db == old(db)
      ensures r.Some? ==> exists k: nat :: StartsAt(old(db), ms, k) && db == Completed(old(db), ms, k)
      ensures r.Some? <==> Succeeds(old(db), ms, failing, required)
      ensures r.Some? ==> (r.value <==> db.ledger != old(db).ledger)
    {
      ghost var saved := db;
      var before := db;
      ghost var k := 0;
      var changed := false;
      if db.ledger == map[] {
        var ledger, n := Bootstrap(ms, db.tables);
        if ledger.None? {
          assert forall k: nat :: StartsAt(saved, ms, k) ==> Bootstrapped(ms, saved.tables, k);
          return None;
        }
        k := n;
        NamedPrefix(ms, k);
        LedgerMembers(ms[..k]);
        if k > 0 {
          assert ms[..k][0].name in LedgerOf(ms[..k]);
        }
        changed := ledger.value != map[];
        db := db.(ledger := ledger.value);
      }
      var ok, n := ValidateApplied(ms, db.ledger);
      if !ok {
        assert saved.ledger == map[] ==> MatchesPrefix(db.ledger, ms, k);
        assert forall j: nat :: StartsAt(saved, ms, j) ==> MatchesPrefix(saved.ledger, ms, j);
        db := before;
        return None;
      }
      StartUnique(saved, ms, k, n, db.ledger);
      var ran, more := RunMissing(ms, n, failing);
      if !ran || !(required <= db.tables) {
        db := before;
        OnlyStart(saved, ms, n);
        return None;
      }
      OnlyStart(saved, ms, n);
      LedgerGrows(ms, n);
      return Some(changed || more);
    }
  }

  lemma PrefixUnique(ms: seq<Migration>, j: nat, k: nat)
    requires Named(ms) && j <= |ms| && k <= |ms| && LedgerOf(ms[..j]) == LedgerOf(ms[..k])
    ensures j == k
  {
    if j < k {
      PrefixMembers(ms, k, j);
      PrefixMembers(ms, j, j);
    } else if k < j {
      PrefixMembers(ms, j, k);
      PrefixMembers(ms, k, k);
    }
  }

  lemma StartUnique(db: Database, ms: seq<Migration>, k: nat, n: nat, ledger: map<string, string>)
    requires Named(ms) && MatchesPrefix(ledger, ms, n)
    requires if db.ledger == map[] then Bootstrapped(ms, db.tables, k) && ledger == LedgerOf(ms[..k])
             else ledger == db.ledger
    ensures StartsAt(db, ms, n)
  {
    if db.ledger == map[] {
      PrefixUnique(ms, k, n);
    }
  }

  lemma OnlyStart(db: Database, ms: seq<Migration>, n: nat)
    requires Named(ms) && StartsAt(db, ms, n)
    ensures forall k: nat :: StartsAt(db, ms, k) ==> k == n
  {
    forall k: nat | StartsAt(db, ms, k)
      ensures k == n
    {
      if db.ledger == map[] {
        BootstrapUnique(ms, db.tables, k, n);
      } else {
        PrefixUnique(ms, k, n);
      }
    }
  }

  lemma LedgerGrows(ms: seq<Migration>, n: nat)
    requires Named(ms) && n <= |ms|
    ensures LedgerOf(ms[..n]) == LedgerOf(ms) <==> n == |ms|
    ensures LedgerOf(ms) == map[] <==> ms == []
  {
    assert ms[..|ms|] == ms;
    if LedgerOf(ms[..n]) == LedgerOf(ms) {
      PrefixUnique(ms, n, |ms|);
    }
    LedgerMembers(ms);
    if ms != [] {
      assert ms[0].name in LedgerOf(ms);
    }
  }

  // ----- any sequence of runs -----

  /** A run of some version of the program, whose embedded list is a prefix of the full one; or other table changes. */
  ghost predicate Step(all: seq<Migration>, db: Database, db': Database) {
    || db' == db
    || db' == db.(tables := db'.tables)
    || exists n: nat, k: nat :: n <= |all| && StartsAt(db, all[..n], k) && db' == Completed(db, all[..n], k)
  }

  /** The ledger is a prefix and the scripts run so far are a contiguous stretch that ends with it. */
  ghost predicate InOrder(all: seq<Migration>, db: Database) {
    exists b: nat, k: nat :: b <= k <= |all| && db.ledger == LedgerOf(all[..k]) && db.executed == Names(all[b..k])
  }

  lemma StepInOrder(all: seq<Migration>, db: Database, db': Database)
    requires Named(all) && InOrder(all, db) && Step(all, db, db')
    ensures InOrder(all, db')
  {
    var b: nat, k: nat :| b <= k <= |all| && db.ledger == LedgerOf(all[..k]) && db.executed == Names(all[b..k]);
    if db'.ledger == db.ledger && db'.executed == db.executed {
      assert InOrder(all, db');
    } else {
      var n: nat, s: nat :| n <= |all| && StartsAt(db, all[..n], s) && db' == Completed(db, all[..n], s);
      RunInOrder(all, db, b, k, n, s);
    }
  }

  lemma NamesJoin(all: seq<Migration>, b: nat, k: nat, n: nat)
    requires b <= k <= n <= |all|
    ensures Names(all[b..k]) + Names(all[k..n]) == Names(all[b..n])
  {
  }

  lemma RunInOrder(all: seq<Migration>, db: Database, b: nat, k: nat, n: nat, s: nat)
    requires Named(all) && b <= k <= |all| && n <= |all| && StartsAt(db, all[..n], s)
    requires db.ledger == LedgerOf(all[..k]) && db.executed == Names(all[b..k])
    ensures InOrder(all, Completed(db, all[..n], s))
  {
    assert all[..n][s..] == all[s..n] && all[..n][..s] == all[..s];
    if db.ledger == map[] {
      EmptyPrefix(all, k);
      assert db.executed == [];
      assert db.executed + Names(all[s..n]) == Names(all[s..n]);
    } else {
      PrefixUnique(all, k, s);
      NamesJoin(all, b, k, n);
    }
  }

  lemma EmptyPrefix(all: seq<Migration>, k: nat)
    requires Named(all) && k <= |all| && LedgerOf(all[..k]) == map[]
    ensures k == 0
  {
    NamedPrefix(all, k);
    LedgerGrows(all[..k], 0);
  }

  /** Over any runs from a fresh database, every script runs at most once and in list order. */
  lemma {:induction false} RunsInOrder(all: seq<Migration>, trace: seq<Database>)
    requires Named(all) && |trace| > 0 && trace[0].ledger == map[] && trace[0].executed == []
    requires forall i :: 0 <= i < |trace| - 1 ==> Step(all, trace[i], trace[i + 1])
    ensures InOrder(all, trace[|trace| - 1])
    ensures NoDuplicates(trace[|trace| - 1].executed)
  {
    var last := trace[|trace| - 1];
    if |trace| == 1 {
      assert all[..0] == [] && all[0..0] == [];
      assert InOrder(all, last);
    } else {
      RunsInOrder(all, trace[..|trace| - 1]);
      assert Step(all, trace[|trace| - 2], trace[|trace| - 2 + 1]);
      StepInOrder(all, trace[|trace| - 2], last);
    }
    var b: nat, k: nat :| b <= k <= |all| && last.ledger == LedgerOf(all[..k]) && last.executed == Names(all[b..k]);
    forall i, j | 0 <= i < j < |last.executed|
      ensures last.executed[i] != last.executed[j]
    {
      assert NameOf(all[b + i]) != NameOf(all[b + j]);
    }
  }

  /**
   After a successful run the same list starts at its end and nowhere else, so the next run
   succeeds, whatever scripts would fail, and changes nothing.
   */
  lemma RerunChangesNothing(
    db: Database, ms: seq<Migration>, k: nat, failing: set<string>, required: set<string>)
    requires Named(ms) && StartsAt(db, ms, k) && required <= Completed(db, ms, k).tables
    ensures var done := Completed(db, ms, k);
            && StartsAt(done, ms, |ms|) && (forall j: nat :: StartsAt(done, ms, j) ==> j == |ms|)
            && Completed(done, ms, |ms|) == done && Succeeds(done, ms, failing, required)
  {
    var done := Completed(db, ms, k);
    assert ms[..|ms|] == ms && ms[|ms|..] == [];
    LedgerGrows(ms, 0);
    assert StartsAt(done, ms, |ms|);
    OnlyStart(done, ms, |ms|);
    assert Completed(done, ms, |ms|) == done;
  }

  /** An older program refuses a ledger that a newer one has extended. */
  lemma OlderListRefuses(all: seq<Migration>, n: nat, k: nat)
    requires Named(all) && n < k <= |all|
    ensures forall j: nat :: !MatchesPrefix(LedgerOf(all[..k]), all[..n], j)
  {
    forall j: nat | j <= n
      ensures LedgerOf(all[..k]) != LedgerOf(all[..n][..j])
    {
      assert all[..n][..j] == all[..j];
      if LedgerOf(all[..k]) == LedgerOf(all[..j]) {
        PrefixUnique(all, k, j);
      }
    }
  }
}
