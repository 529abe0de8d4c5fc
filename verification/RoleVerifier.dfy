/**
 The snapshot verifier: it accepts a group role exactly when its effective rights are the
 manifest's and nothing can be granted on.
 */
module RoleVerifier {
  import opened Outcomes
  import opened Ordering
  import opened RoleManifest
  import opened RolePolicy

  // ----- snapshots -----

  datatype RoleFacts = RoleFacts(
    name: string, canLogin: bool, inherits: bool, superuser: bool, bypassRls: bool, createDb: bool, createRole: bool,
    replication: bool)

  datatype Membership = Membership(role: string, admin: bool, inherits: bool, sets: bool)

  datatype ColumnRight = ColumnRight(table: string, column: string, privilege: Privilege)

  /** What is read about a role besides its grants. */
  datatype Standing = Standing(
    facts: RoleFacts, memberships: seq<Membership>, adminMembers: seq<string>, owned: nat, configuration: seq<string>)

  datatype Snapshot = Snapshot(
    standing: Standing, connect: bool, createDatabase: bool, temporary: bool, usage: bool, createSchema: bool,
    tables: map<string, map<Privilege, bool>>, columns: set<ColumnRight>, functions: set<string>,
    grantOptions: set<Grant>, unmanifested: set<Grant>)

  datatype Expectation = Expectation(
    name: string, login: bool, exact: bool, requireUsage: bool, allowedMembership: Option<string>,
    rejectAdminMembers: bool)

  const MAINTAIN_SINCE := 170000

  function SupportedTablePrivileges(serverVersion: int): set<Privilege> {
    {Select, Insert, Update, Delete, Truncate, References, Trigger} +
    (if serverVersion >= MAINTAIN_SINCE then {Maintain} else {})
  }

  predicate ColumnPrivilege(p: Privilege) {
    p == Select || p == Insert || p == Update || p == References
  }

  /** An effective right: granted to the role or to everyone. */
  predicate Held(acl: set<Grant>, role: Grantee, item: Object, right: Right) {
    exists g :: g in acl && g.item == item && g.right == right && (g.grantee == role || g.grantee.Everyone?)
  }

  function TableRights(acl: set<Grant>, role: Grantee, table: string, supported: set<Privilege>): map<Privilege, bool> {
    map p | p in supported :: Held(acl, role, Table(table), On(p))
  }

  /** Column rights include those that come with the table. */
  function ColumnRights(acl: set<Grant>, role: Grantee, catalog: Catalog): set<ColumnRight> {
    set i, c, p | 0 <= i < |catalog.relations| && c in catalog.relations[i].columns
                  && p in {Select, Insert, Update, References}
                  && (Held(acl, role, Table(catalog.relations[i].name), On(p))
                      || Held(acl, role, Column(catalog.relations[i].name, c), On(p)))
      :: ColumnRight(catalog.relations[i].name, c, p)
  }

  function LoadSnapshot(
    acl: set<Grant>, role: Grantee, catalog: Catalog, supported: set<Privilege>, standing: Standing): Snapshot
  {
    Snapshot(standing,
             Held(acl, role, Database, Connect), Held(acl, role, Database, CreateIn),
             Held(acl, role, Database, Temporary),
             Held(acl, role, Schema, Usage), Held(acl, role, Schema, CreateIn),
             map t | t in TableNames(catalog) :: TableRights(acl, role, t, supported),
             ColumnRights(acl, role, catalog),
             set f | f in catalog.functions && Held(acl, role, Function(f), Execute),
             set g | g in acl && g.grantee == role && g.grantable && !g.item.Elsewhere?,
             set g | g in acl && (g.grantee == role || g.grantee.Everyone?) && g.item.Elsewhere?)
  }

  // ----- the verifier's checks -----

  predicate SafeAttributes(f: RoleFacts, name: string, login: bool) {
    && f.name == name && f.canLogin == login && !(login && f.inherits)
    && !f.superuser && !f.bypassRls && !f.createDb && !f.createRole && !f.replication
  }

  predicate MembershipsExpected(memberships: seq<Membership>, allowed: Option<string>) {
    match allowed
    case None => memberships == []
    case Some(role) => |memberships| == 1 && memberships[0] == Membership(role, false, false, true)
  }

  /** The last rule for a table is the one the verifier keeps. */
  function ExpectedTables(rules: seq<TableRule>): map<string, set<Privilege>> {
    if rules == [] then map[]
    else
      var front, last := rules[..|rules| - 1], rules[|rules| - 1];
      ExpectedTables(front)[last.table := Elements(last.privileges)]
  }

  predicate Wanted(expected: map<string, set<Privilege>>, e: Expectation, table: string, p: Privilege) {
    e.allowedMembership.None? && table in expected && p in expected[table]
  }

  predicate TableAsExpected(
    expected: map<string, set<Privilege>>, e: Expectation, table: string, actual: map<Privilege, bool>) {
    && (forall p :: p in actual && actual[p] ==> Wanted(expected, e, table, p))
    && (e.exact ==> forall p :: p in actual && Wanted(expected, e, table, p) ==> actual[p])
    && (e.exact && table in expected ==> forall p :: p in expected[table] ==> p in actual && actual[p])
  }

  predicate StandingAcceptable(s: Standing, e: Expectation) {
    && SafeAttributes(s.facts, e.name, e.login) && MembershipsExpected(s.memberships, e.allowedMembership)
    && (e.rejectAdminMembers ==> s.adminMembers == []) && s.owned == 0
  }

  predicate ScopesAcceptable(s: Snapshot, m: Manifest, e: Expectation) {
    && s.connect && !s.createDatabase && !s.temporary && !s.createSchema
    && (e.requireUsage ==> s.usage) && (e.allowedMembership.Some? ==> !s.usage)
    && s.functions == (if e.login then {} else Elements(m.functions))
    && s.grantOptions == {} && s.unmanifested == {} && s.standing.configuration == []
  }

  predicate TablesAcceptable(s: Snapshot, expected: map<string, set<Privilege>>, e: Expectation) {
    && (e.exact ==> expected.Keys <= s.tables.Keys)
    && (forall t :: t in s.tables ==> TableAsExpected(expected, e, t, s.tables[t]))
    && (forall c :: c in s.columns ==> Wanted(expected, e, c.table, c.privilege))
  }

  predicate SnapshotAcceptable(s: Snapshot, m: Manifest, e: Expectation) {
    StandingAcceptable(s.standing, e) && ScopesAcceptable(s, m, e) && TablesAcceptable(s, ExpectedTables(m.tables), e)
  }

  method CheckFunctions(actual: set<string>, expected: seq<string>) returns (ok: bool)
    ensures ok <==> actual == Elements(expected)
  {
    var rest := actual;
    while rest != {}
      invariant rest <= actual && forall f :: f in actual - rest ==> f in expected
      decreases rest
    {
      var f :| f in rest;
      if f !in expected {
        assert f in actual;
        return false;
      }
      rest := rest - {f};
    }
    for i := 0 to |expected|
      invariant forall k :: 0 <= k < i ==> expected[k] in actual
    {
      if expected[i] !in actual {
        assert expected[i] in Elements(expected);
        return false;
      }
    }
    return true;
  }

  method CheckTable(expected: map<string, set<Privilege>>, e: Expectation, table: string, actual: map<Privilege, bool>)
    returns (ok: bool)
    ensures ok <==> TableAsExpected(expected, e, table, actual)
  {
    var rest := actual.Keys;
    while rest != {}
      invariant rest <= actual.Keys
      invariant forall p :: p in actual.Keys - rest && actual[p] ==> Wanted(expected, e, table, p)
      invariant e.exact ==> forall p :: p in actual.Keys - rest && Wanted(expected, e, table, p) ==> actual[p]
      decreases rest
    {
      var p :| p in rest;
      var wanted := Wanted(expected, e, table, p);
      if (actual[p] && !wanted) || (e.exact && wanted && !actual[p]) {
        return false;
      }
      rest := rest - {p};
    }
    if e.exact && table in expected {
      var want := expected[table];
      while want != {}
        invariant want <= expected[table]
        invariant forall p :: p in expected[table] - want ==> p in actual && actual[p]
        decreases want
      {
        var p :| p in want;
        if p !in actual || !actual[p] {
          return false;
        }
        want := want - {p};
      }
    }
    return true;
  }

  method BuildExpectedTables(m: Manifest) returns (expected: map<string, set<Privilege>>)
    ensures expected == ExpectedTables(m.tables)
  {
    expected := map[];
    for i := 0 to |m.tables|
      invariant expected == ExpectedTables(m.tables[..i])
    {
      assert m.tables[..i + 1][..i] == m.tables[..i];
      var privileges: set<Privilege> := {};
      for j := 0 to |m.tables[i].privileges|
        invariant privileges == Elements(m.tables[i].privileges[..j])
      {
        assert m.tables[i].privileges[..j + 1] == m.tables[i].privileges[..j] + [m.tables[i].privileges[j]];
        privileges := privileges + {m.tables[i].privileges[j]};
      }
      assert m.tables[i].privileges[..|m.tables[i].privileges|] == m.tables[i].privileges;
      expected := expected[m.tables[i].table := privileges];
    }
    assert m.tables[..|m.tables|] == m.tables;
  }

  method CheckTables(s: Snapshot, expected: map<string, set<Privilege>>, e: Expectation) returns (ok: bool)
    ensures ok <==> TablesAcceptable(s, expected, e)
  {
    if e.exact && !(expected.Keys <= s.tables.Keys) {
      return false;
    }
    var rest := s.tables.Keys;
    while rest != {}
      invariant rest <= s.tables.Keys
      invariant forall t :: t in s.tables.Keys - rest ==> TableAsExpected(expected, e, t, s.tables[t])
      decreases rest
    {
      var t :| t in rest;
      var fine := CheckTable(expected, e, t, s.tables[t]);
      if !fine {
        return false;
      }
      rest := rest - {t};
    }
    var columns := s.columns;
    while columns != {}
      invariant columns <= s.columns
      invariant forall c :: c in s.columns - columns ==> Wanted(expected, e, c.table, c.privilege)
      decreases columns
    {
      var c :| c in columns;
      if !Wanted(expected, e, c.table, c.privilege) {
        return false;
      }
      columns := columns - {c};
    }
    return true;
  }

  method ValidatePrincipalSnapshot(s: Snapshot, m: Manifest, e: Expectation) returns (ok: bool)
    ensures ok <==> SnapshotAcceptable(s, m, e)
  {
    if !StandingAcceptable(s.standing, e) {
      return false;
    }
    if !s.connect || s.createDatabase || s.temporary || s.createSchema {
      return false;
    }
    if (e.requireUsage && !s.usage) || (e.allowedMembership.Some? && s.usage) {
      return false;
    }
    var functions := CheckFunctions(s.functions, if e.login then [] else m.functions);
    assert Elements<string>([]) == {};
    if !functions {
      return false;
    }
    if s.grantOptions != {} || s.unmanifested != {} || |s.standing.configuration| != 0 {
      return false;
    }
    var expected := BuildExpectedTables(m);
    ok := CheckTables(s, expected, e);
  }

  // ----- what acceptance means for the grants -----

  predicate Allowed(m: Manifest, table: string, p: Privilege) {
    exists i :: 0 <= i < |m.tables| && m.tables[i].table == table && p in m.tables[i].privileges
  }

  ghost predicate UniqueRules(m: Manifest) {
    DistinctKeys(m.tables, TableOf)
  }

  predicate AllSupported(m: Manifest, supported: set<Privilege>) {
    forall i, p :: 0 <= i < |m.tables| && p in m.tables[i].privileges ==> p in supported
  }

  /** The effective rights of the role, column by column, are the manifest's: none more and none fewer. */
  ghost predicate ExactRights(
    acl: set<Grant>, catalog: Catalog, m: Manifest, role: Grantee, supported: set<Privilege>) {
    && RelationsPresent(m, catalog) && AllSupported(m, supported)
    && Held(acl, role, Database, Connect) && !Held(acl, role, Database, CreateIn)
    && !Held(acl, role, Database, Temporary)
    && Held(acl, role, Schema, Usage) && !Held(acl, role, Schema, CreateIn)
    && (forall t, p :: t in TableNames(catalog) && p in supported ==>
        (Held(acl, role, Table(t), On(p)) <==> Allowed(m, t, p)))
    && (forall t, c, p :: HasColumn(catalog, t, c) && ColumnPrivilege(p) && Held(acl, role, Column(t, c), On(p)) ==>
        Allowed(m, t, p))
    && Elements(m.functions) <= catalog.functions
    && (forall f :: f in catalog.functions ==> (Held(acl, role, Function(f), Execute) <==> f in m.functions))
  }

  function GroupExpectation(name: string): Expectation {
    Expectation(name, false, true, true, None, true)
  }

  lemma {:induction false} ExpectedMeansAllowed(rules: seq<TableRule>)
    requires DistinctKeys(rules, TableOf)
    ensures forall t, p :: (t in ExpectedTables(rules) && p in ExpectedTables(rules)[t]) <==>
                           exists i :: 0 <= i < |rules| && rules[i].table == t && p in rules[i].privileges
    ensures forall t :: t in ExpectedTables(rules) <==> exists i :: 0 <= i < |rules| && rules[i].table == t
  {
    if rules != [] {
      var front, last := rules[..|rules| - 1], rules[|rules| - 1];
      assert DistinctKeys(front, TableOf);
      ExpectedMeansAllowed(front);
      forall i | 0 <= i < |front|
        ensures front[i] == rules[i] && TableOf(rules[i]) != TableOf(last)
      {
      }
      forall t, p
        ensures (t in ExpectedTables(rules) && p in ExpectedTables(rules)[t]) <==>
                exists i :: 0 <= i < |rules| && rules[i].table == t && p in rules[i].privileges
      {
        ExpectedStep(rules, t, p);
      }
      forall t
        ensures t in ExpectedTables(rules) <==> exists i :: 0 <= i < |rules| && rules[i].table == t
      {
        if t == last.table {
          assert rules[|rules| - 1].table == t;
        } else if t in ExpectedTables(front) {
          var i :| 0 <= i < |front| && front[i].table == t;
          assert rules[i].table == t;
        }
      }
    }
  }

  lemma ExpectedStep(rules: seq<TableRule>, t: string, p: Privilege)
    requires rules != [] && DistinctKeys(rules, TableOf)
    requires var front := rules[..|rules| - 1];
             (t in ExpectedTables(front) && p in ExpectedTables(front)[t]) <==>
             exists i :: 0 <= i < |front| && front[i].table == t && p in front[i].privileges
    ensures (t in ExpectedTables(rules) && p in ExpectedTables(rules)[t]) <==>
            exists i :: 0 <= i < |rules| && rules[i].table == t && p in rules[i].privileges
  {
    var front, last := rules[..|rules| - 1], rules[|rules| - 1];
    if i :| 0 <= i < |front| && front[i].table == t && p in front[i].privileges {
      assert rules[i] == front[i];
      assert TableOf(rules[i]) != TableOf(last);
    }
    if i :| 0 <= i < |rules| && rules[i].table == t && p in rules[i].privileges {
      if i < |front| {
        assert rules[i] == front[i] && TableOf(rules[i]) != TableOf(last);
      }
    }
  }

  lemma WantedMeansAllowed(m: Manifest, name: string, t: string, p: Privilege)
    requires UniqueRules(m)
    ensures Wanted(ExpectedTables(m.tables), GroupExpectation(name), t, p) <==> Allowed(m, t, p)
  {
    ExpectedMeansAllowed(m.tables);
  }

  lemma TablePart(acl: set<Grant>, catalog: Catalog, m: Manifest, name: string, supported: set<Privilege>, t: string)
    requires UniqueRules(m)
    ensures TableAsExpected(ExpectedTables(m.tables), GroupExpectation(name), t,
                            TableRights(acl, Role(name), t, supported)) <==>
            && (forall p :: p in supported ==> (Held(acl, Role(name), Table(t), On(p)) <==> Allowed(m, t, p)))
            && (forall p :: Allowed(m, t, p) ==> p in supported)
  {
    var expected, e := ExpectedTables(m.tables), GroupExpectation(name);
    var actual := TableRights(acl, Role(name), t, supported);
    forall p
      ensures Wanted(expected, e, t, p) <==> Allowed(m, t, p)
    {
      WantedMeansAllowed(m, name, t, p);
    }
    if TableAsExpected(expected, e, t, actual) {
      forall p | p in supported
        ensures Held(acl, Role(name), Table(t), On(p)) <==> Allowed(m, t, p)
      {
        assert p in actual && actual[p] == Held(acl, Role(name), Table(t), On(p));
        assert Wanted(expected, e, t, p) <==> Allowed(m, t, p);
      }
      forall p | Allowed(m, t, p)
        ensures p in supported
      {
        assert Wanted(expected, e, t, p);
        assert p in expected[t];
      }
    }
  }

  lemma ColumnPart(acl: set<Grant>, catalog: Catalog, m: Manifest, name: string)
    requires UniqueRules(m)
    requires forall t, p :: t in TableNames(catalog) && ColumnPrivilege(p) && Held(acl, Role(name), Table(t), On(p)) ==>
             Allowed(m, t, p)
    ensures (forall c :: c in ColumnRights(acl, Role(name), catalog) ==>
                           Wanted(ExpectedTables(m.tables), GroupExpectation(name), c.table, c.privilege)) <==>
            (forall t, c, p ::
             HasColumn(catalog, t, c) && ColumnPrivilege(p) && Held(acl, Role(name), Column(t, c), On(p)) ==>
                                 Allowed(m, t, p))
  {
    var rights := ColumnRights(acl, Role(name), catalog);
    forall c | c in rights
      ensures Wanted(ExpectedTables(m.tables), GroupExpectation(name), c.table, c.privilege) <==>
              Allowed(m, c.table, c.privilege)
    {
      WantedMeansAllowed(m, name, c.table, c.privilege);
    }
    ColumnRightsMembers(acl, Role(name), catalog);
    forall t, c, p | HasColumn(catalog, t, c) && ColumnPrivilege(p) && Held(acl, Role(name), Column(t, c), On(p))
      ensures ColumnRight(t, c, p) in rights
    {
    }
    forall c | c in rights && Held(acl, Role(name), Table(c.table), On(c.privilege))
      ensures Allowed(m, c.table, c.privilege)
    {
      ColumnIsOfTable(catalog, c.table, c.column);
    }
  }

  lemma ColumnIsOfTable(catalog: Catalog, t: string, c: string)
    requires HasColumn(catalog, t, c)
    ensures t in TableNames(catalog)
  {
    var i :| 0 <= i < |catalog.relations| && catalog.relations[i].name == t && c in catalog.relations[i].columns;
    assert Mapped(catalog.relations, RelationName)[i] == t;
  }

  lemma ColumnRightsMembers(acl: set<Grant>, role: Grantee, catalog: Catalog)
    ensures forall t, c, p :: ColumnRight(t, c, p) in ColumnRights(acl, role, catalog) <==>
                              HasColumn(catalog, t, c) && ColumnPrivilege(p)
                              && (Held(acl, role, Table(t), On(p)) || Held(acl, role, Column(t, c), On(p)))
  {
    forall t, c, p | HasColumn(catalog, t, c) && ColumnPrivilege(p)
                     && (Held(acl, role, Table(t), On(p)) || Held(acl, role, Column(t, c), On(p)))
      ensures ColumnRight(t, c, p) in ColumnRights(acl, role, catalog)
    {
      var i :| 0 <= i < |catalog.relations| && catalog.relations[i].name == t && c in catalog.relations[i].columns;
      assert p in {Select, Insert, Update, References};
      assert c in catalog.relations[i].columns;
    }
  }

  lemma FunctionPart(acl: set<Grant>, catalog: Catalog, m: Manifest, role: Grantee)
    ensures (set f | f in catalog.functions && Held(acl, role, Function(f), Execute)) == Elements(m.functions) <==>
            && Elements(m.functions) <= catalog.functions
            && (forall f :: f in catalog.functions ==> (Held(acl, role, Function(f), Execute) <==> f in m.functions))
  {
    var held := set f | f in catalog.functions && Held(acl, role, Function(f), Execute);
    assert forall f :: f in Elements(m.functions) <==> f in m.functions;
    if held == Elements(m.functions) {
      forall f | f in catalog.functions
        ensures Held(acl, role, Function(f), Execute) <==> f in m.functions
      {
        assert f in held <==> f in Elements(m.functions);
      }
    }
  }

  lemma TablesPart(acl: set<Grant>, catalog: Catalog, m: Manifest, name: string, supported: set<Privilege>, s: Snapshot)
    requires UniqueRules(m) && forall p :: ColumnPrivilege(p) ==> p in supported
    requires s.tables == (map t | t in TableNames(catalog) :: TableRights(acl, Role(name), t, supported))
    requires s.columns == ColumnRights(acl, Role(name), catalog)
    ensures TablesAcceptable(s, ExpectedTables(m.tables), GroupExpectation(name)) <==>
            && RelationsPresent(m, catalog) && AllSupported(m, supported)
            && (forall t, p :: t in TableNames(catalog) && p in supported ==>
                                 (Held(acl, Role(name), Table(t), On(p)) <==> Allowed(m, t, p)))
            && (forall t, c, p ::
                HasColumn(catalog, t, c) && ColumnPrivilege(p) && Held(acl, Role(name), Column(t, c), On(p)) ==>
                                    Allowed(m, t, p))
  {
    var expected, e, role := ExpectedTables(m.tables), GroupExpectation(name), Role(name);
    PresentPart(catalog, m);
    SupportedPart(catalog, m, supported);
    EveryTablePart(acl, catalog, m, name, supported, s);
    var tablesExact := forall t, p :: t in TableNames(catalog) && p in supported ==>
                                        (Held(acl, role, Table(t), On(p)) <==> Allowed(m, t, p));
    if tablesExact {
      ColumnPart(acl, catalog, m, name);
    }
  }

  lemma EveryTablePart(
    acl: set<Grant>, catalog: Catalog, m: Manifest, name: string, supported: set<Privilege>, s: Snapshot)
    requires UniqueRules(m)
    requires s.tables == (map t | t in TableNames(catalog) :: TableRights(acl, Role(name), t, supported))
    ensures (forall t :: t in s.tables ==>
             TableAsExpected(ExpectedTables(m.tables), GroupExpectation(name), t, s.tables[t])) <==>
            && (forall t, p :: t in TableNames(catalog) && p in supported ==>
                                 (Held(acl, Role(name), Table(t), On(p)) <==> Allowed(m, t, p)))
            && (forall t, p :: t in TableNames(catalog) && Allowed(m, t, p) ==> p in supported)
  {
    forall t | t in TableNames(catalog)
      ensures TableAsExpected(ExpectedTables(m.tables), GroupExpectation(name), t, s.tables[t]) <==>
              && (forall p :: p in supported ==> (Held(acl, Role(name), Table(t), On(p)) <==> Allowed(m, t, p)))
              && (forall p :: Allowed(m, t, p) ==> p in supported)
    {
      TablePart(acl, catalog, m, name, supported, t);
    }
    if forall t :: t in s.tables ==> TableAsExpected(ExpectedTables(m.tables), GroupExpectation(name), t, s.tables[t]) {
      forall t | t in TableNames(catalog)
        ensures TableAsExpected(ExpectedTables(m.tables), GroupExpectation(name), t, s.tables[t])
      {
        assert t in s.tables;
      }
    }
  }

  lemma PresentPart(catalog: Catalog, m: Manifest)
    requires UniqueRules(m)
    ensures RelationsPresent(m, catalog) <==> ExpectedTables(m.tables).Keys <= TableNames(catalog)
  {
    ExpectedMeansAllowed(m.tables);
  }

  lemma SupportedPart(catalog: Catalog, m: Manifest, supported: set<Privilege>)
    ensures RelationsPresent(m, catalog) ==>
              (AllSupported(m, supported) <==>
               forall t, p :: t in TableNames(catalog) && Allowed(m, t, p) ==> p in supported)
  {
    if RelationsPresent(m, catalog) {
      forall i, p | 0 <= i < |m.tables| && p in m.tables[i].privileges
        ensures Allowed(m, m.tables[i].table, p) && m.tables[i].table in TableNames(catalog)
      {
      }
    }
  }

  /** No right may be passed on, and nothing is held outside the schema and database. */
  ghost predicate NothingBesides(acl: set<Grant>, role: Grantee) {
    && (forall g :: g in acl && g.grantee == role && !g.item.Elsewhere? ==> !g.grantable)
    && (forall g :: g in acl && (g.grantee == role || g.grantee.Everyone?) ==> !g.item.Elsewhere?)
  }

  /** The verifier accepts a group role exactly when its effective rights are the manifest's. */
  lemma AcceptedExactly(
    acl: set<Grant>, catalog: Catalog, m: Manifest, name: string, supported: set<Privilege>, standing: Standing)
    requires UniqueRules(m) && forall p :: ColumnPrivilege(p) ==> p in supported
    ensures SnapshotAcceptable(LoadSnapshot(acl, Role(name), catalog, supported, standing), m,
                               GroupExpectation(name)) <==>
            && StandingAcceptable(standing, GroupExpectation(name)) && standing.configuration == []
            && NothingBesides(acl, Role(name)) && ExactRights(acl, catalog, m, Role(name), supported)
  {
    var s := LoadSnapshot(acl, Role(name), catalog, supported, standing);
    TablesPart(acl, catalog, m, name, supported, s);
    FunctionPart(acl, catalog, m, Role(name));
    BesidesPart(acl, Role(name), s);
  }

  lemma BesidesPart(acl: set<Grant>, role: Grantee, s: Snapshot)
    requires s.grantOptions == set g | g in acl && g.grantee == role && g.grantable && !g.item.Elsewhere?
    requires s.unmanifested == set g | g in acl && (g.grantee == role || g.grantee.Everyone?) && g.item.Elsewhere?
    ensures (s.grantOptions == {} && s.unmanifested == {}) <==> NothingBesides(acl, role)
  {
    if s.grantOptions == {} && s.unmanifested == {} {
      forall g | g in acl
        ensures g !in s.grantOptions && g !in s.unmanifested
      {
      }
    }
  }
}
