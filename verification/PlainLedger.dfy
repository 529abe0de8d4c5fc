/** The ledger checks and runs, name by name. */
module PlainLedger {
  import opened Outcomes
  import opened Ordering
  import opened MigrationLedger

  /** Exactly the first k names are recorded, each with its embedded checksum. */
  ghost predicate FirstRecorded(applied: map<string, string>, ms: seq<Migration>, k: nat) {
    && k <= |ms|
    && (forall i :: 0 <= i < k ==> ms[i].name in applied && applied[ms[i].name] == ms[i].checksum)
    && (forall n :: n in applied ==> exists i :: 0 <= i < k && ms[i].name == n)
  }

  lemma PrefixPlainly(ms: seq<Migration>, applied: map<string, string>, k: nat)
    requires Named(ms)
    ensures MatchesPrefix(applied, ms, k) <==> FirstRecorded(applied, ms, k)
  {
    if k <= |ms| {
      NamedPrefix(ms, k);
      LedgerMembers(ms[..k]);
      forall i | 0 <= i < k
        ensures ms[i].name in LedgerOf(ms[..k]) && LedgerOf(ms[..k])[ms[i].name] == ms[i].checksum
      {
        assert ms[..k][i] == ms[i];
      }
      forall n | n in LedgerOf(ms[..k])
        ensures exists i :: 0 <= i < k && ms[i].name == n
      {
        var i :| 0 <= i < k && ms[..k][i].name == n;
        assert ms[i].name == n;
      }
    }
  }

  /** A first run on an old schema: whole migrations are there up to k and none of the tables after it. */
  ghost predicate TablesUpTo(ms: seq<Migration>, tables: set<string>, k: nat) {
    && k <= |ms|
    && (forall i :: 0 <= i < k ==> |ms[i].required| > 0)
    && (forall i, t :: 0 <= i < |ms| && t in ms[i].required ==> (t in tables <==> i < k))
  }

  lemma BootstrapPlainly(ms: seq<Migration>, tables: set<string>, k: nat)
    ensures Bootstrapped(ms, tables, k) <==> TablesUpTo(ms, tables, k)
  {
    if Bootstrapped(ms, tables, k) {
      forall i, t | 0 <= i < |ms| && t in ms[i].required
        ensures t in tables <==> i < k
      {
        var j :| 0 <= j < |ms[i].required| && ms[i].required[j] == t;
        assert i < k ==> FullyPresent(ms[i], tables);
        assert i >= k ==> Absent(ms[i], tables);
      }
    }
    if TablesUpTo(ms, tables, k) {
      forall i | 0 <= i < |ms|
        ensures if i < k then FullyPresent(ms[i], tables) else Absent(ms[i], tables)
      {
        assert forall j :: 0 <= j < |ms[i].required| ==> ms[i].required[j] in ms[i].required;
      }
    }
  }

  lemma {:induction false} CreatedPlainly(ms: seq<Migration>, t: string)
    ensures t in Created(ms) <==> exists i :: 0 <= i < |ms| && t in ms[i].creates
  {
    if ms != [] {
      var front, last := ms[..|ms| - 1], ms[|ms| - 1];
      CreatedPlainly(front, t);
      assert ms == front + [last];
      if t in Created(front) {
        var i :| 0 <= i < |front| && t in front[i].creates;
        assert t in ms[i].creates;
      }
      if i :| 0 <= i < |ms| && t in ms[i].creates {
        assert i < |front| ==> t in front[i].creates;
      }
    }
  }

  /**
   After a successful run every embedded migration is recorded with its checksum and no other;
   the scripts that ran are those after the start, in order, and their tables are there.
   */
  lemma CompletedPlainly(db: Database, ms: seq<Migration>, k: nat)
    requires Named(ms) && StartsAt(db, ms, k) && k <= |ms|
    ensures var done := Completed(db, ms, k);
            && FirstRecorded(done.ledger, ms, |ms|)
            && |done.executed| == |db.executed| + |ms| - k && db.executed <= done.executed
            && (forall i :: k <= i < |ms| ==> done.executed[|db.executed| + i - k] == ms[i].name)
            && (forall t :: t in done.tables <==>
                  t in db.tables || exists i :: k <= i < |ms| && t in ms[i].creates)
  {
    var done, rest := Completed(db, ms, k), ms[k..];
    assert ms[..|ms|] == ms;
    PrefixPlainly(ms, done.ledger, |ms|);
    forall i | k <= i < |ms|
      ensures done.executed[|db.executed| + i - k] == ms[i].name
    {
      assert rest[i - k] == ms[i];
    }
    forall t
      ensures t in done.tables <==> t in db.tables || exists i :: k <= i < |ms| && t in ms[i].creates
    {
      CreatedPlainly(rest, t);
      if i :| 0 <= i < |rest| && t in rest[i].creates {
        assert t in ms[k + i].creates;
      }
      if i :| k <= i < |ms| && t in ms[i].creates {
        assert rest[i - k] == ms[i];
      }
    }
  }
}
