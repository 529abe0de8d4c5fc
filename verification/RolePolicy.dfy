/**
 The role policy: a manifest compiled to REVOKE and GRANT statements, their meaning over
 an access-control list, and the verifier's reading of the result. One grantor; roles
 hold no memberships.
 */
module RolePolicy {
  import opened Outcomes
  import opened Ordering
  import opened RoleManifest

  // ----- access control -----

  datatype Grantee = Everyone | Role(name: string)

  datatype Object =
    | Database | Schema | Table(name: string) | Column(table: string, column: string) | Function(signature: string)
    | Elsewhere(name: string)

  datatype Right = Connect | CreateIn | Temporary | Usage | Execute | On(privilege: Privilege)

  datatype Grant = Grant(item: Object, right: Right, grantee: Grantee, grantable: bool)

  datatype Relation = Relation(name: string, columns: seq<string>)

  /**
   What the policy schema contains, and whether revoking on a table also revokes on its
   columns: no result below depends on the answer.
   */
  datatype Catalog = Catalog(relations: seq<Relation>, functions: set<string>, tableRevokeReachesColumns: bool)

  function RelationName(r: Relation): string { r.name }

  function TableNames(catalog: Catalog): set<string> {
    Refs(catalog.relations, RelationName)
  }

  predicate HasColumn(catalog: Catalog, table: string, column: string) {
    exists i ::
      0 <= i < |catalog.relations| && catalog.relations[i].name == table && column in catalog.relations[i].columns
  }

  /** Grants on tables, columns and functions name things the schema contains. */
  ghost predicate Grounded(catalog: Catalog, acl: set<Grant>) {
    forall g :: g in acl ==> GroundedObject(catalog, g.item)
  }

  predicate GroundedObject(catalog: Catalog, o: Object) {
    match o
    case Table(t) => t in TableNames(catalog)
    case Column(t, c) => t in TableNames(catalog) && HasColumn(catalog, t, c)
    case Function(f) => f in catalog.functions
    case _ => true
  }

  // ----- statements -----

  datatype Statement =
    | RevokeDatabase(who: Grantee)
    | GrantConnect(who: Grantee)
    | RevokeSchema(who: Grantee)
    | GrantUsage(who: Grantee)
    | RevokeAllTables(who: Grantee)
    | RevokeAllFunctions(who: Grantee)
    | RevokeColumns(table: string, columns: seq<string>, who: Grantee)
    | GrantTable(table: string, privileges: seq<Privilege>, who: Grantee)
    | GrantExecute(signature: string, who: Grantee)

  /** Which objects a REVOKE clears. */
  predicate Clears(catalog: Catalog, st: Statement, o: Object) {
    match st
    case RevokeDatabase(_) => o.Database?
    case RevokeSchema(_) => o.Schema?
    case RevokeAllTables(_) =>
      (o.Table? && o.name in TableNames(catalog))
      || (catalog.tableRevokeReachesColumns && o.Column? && o.table in TableNames(catalog))
    case RevokeAllFunctions(_) => o.Function? && o.signature in catalog.functions
    case RevokeColumns(table, columns, _) => o.Column? && o.table == table && o.column in columns
    case _ => false
  }

  function Added(st: Statement): set<Grant> {
    match st
    case GrantConnect(who) => {Grant(Database, Connect, who, false)}
    case GrantUsage(who) => {Grant(Schema, Usage, who, false)}
    case GrantTable(table, privileges, who) => set p | p in privileges :: Grant(Table(table), On(p), who, false)
    case GrantExecute(signature, who) => {Grant(Function(signature), Execute, who, false)}
    case _ => {}
  }

  /** A statement about something that does not exist is an error. */
  predicate Executable(catalog: Catalog, st: Statement) {
    match st
    case GrantTable(table, _, _) => table in TableNames(catalog)
    case GrantExecute(signature, _) => signature in catalog.functions
    case _ => true
  }

  function Exec(catalog: Catalog, acl: set<Grant>, st: Statement): set<Grant> {
    (set g | g in acl && !(g.grantee == st.who && Clears(catalog, st, g.item))) + Added(st)
  }

  predicate AllExecutable(catalog: Catalog, sts: seq<Statement>) {
    forall i :: 0 <= i < |sts| ==> Executable(catalog, sts[i])
  }

  function ExecAll(catalog: Catalog, acl: set<Grant>, sts: seq<Statement>): set<Grant> {
    if sts == [] then acl else Exec(catalog, ExecAll(catalog, acl, sts[..|sts| - 1]), sts[|sts| - 1])
  }

  // ----- the compiler -----

  predicate RelationsPresent(m: Manifest, catalog: Catalog) {
    forall i :: 0 <= i < |m.tables| ==> m.tables[i].table in TableNames(catalog)
  }

  function Prologue(role: Grantee): seq<Statement> {
    [RevokeDatabase(role), GrantConnect(role), RevokeSchema(Everyone), RevokeSchema(role), GrantUsage(role),
     RevokeAllTables(Everyone), RevokeAllTables(role), RevokeAllFunctions(Everyone), RevokeAllFunctions(role)]
  }

  function ColumnRevokes(relations: seq<Relation>, role: Grantee): seq<Statement> {
    if relations == [] then []
    else
      var front, last := relations[..|relations| - 1], relations[|relations| - 1];
      ColumnRevokes(front, role)
      + (if last.columns == [] then []
         else [RevokeColumns(last.name, last.columns, Everyone), RevokeColumns(last.name, last.columns, role)])
  }

  function TableGrants(rules: seq<TableRule>, role: Grantee): seq<Statement> {
    if rules == [] then []
    else
      var front, last := rules[..|rules| - 1], rules[|rules| - 1];
      TableGrants(front, role) + (if last.privileges == [] then [] else [GrantTable(last.table, last.privileges, role)])
  }

  function When(b: bool, st: Statement): seq<Statement> {
    if b then [st] else []
  }

  /** Only three helper functions are known to the compiler, one of them by profile. */
  function FunctionGrants(m: Manifest, role: Grantee): seq<Statement> {
    When(ENDPOINT_LOCK in m.functions, GrantExecute(ENDPOINT_LOCK, role))
    + When(m.profile.SupersessionReviewer?, GrantExecute(SUPERSESSION_LOCK, role))
    + When(GOVERNANCE_LOCK in m.functions, GrantExecute(GOVERNANCE_LOCK, role))
  }

  function Compiled(m: Manifest, catalog: Catalog, role: Grantee): seq<Statement> {
    Prologue(role) + ColumnRevokes(catalog.relations, role) + TableGrants(m.tables, role) + FunctionGrants(m, role)
  }

  method PolicyStatements(m: Manifest, catalog: Catalog, role: Grantee) returns (r: Option<seq<Statement>>)
    ensures r.Some? <==> RelationsPresent(m, catalog)
    ensures r.Some? ==> r.value == Compiled(m, catalog, role)
  {
    var present := RequireManifestRelations(m, catalog);
    if !present {
      return None;
    }
    var statements := Prologue(role);
    for i := 0 to |catalog.relations|
      invariant statements == Prologue(role) + ColumnRevokes(catalog.relations[..i], role)
    {
      assert catalog.relations[..i + 1][..i] == catalog.relations[..i];
      var relation := catalog.relations[i];
      if |relation.columns| == 0 {
        continue;
      }
      statements := statements + [RevokeColumns(relation.name, relation.columns, Everyone),
                                  RevokeColumns(relation.name, relation.columns, role)];
    }
    assert catalog.relations[..|catalog.relations|] == catalog.relations;
    ghost var revokes := statements;
    for i := 0 to |m.tables|
      invariant statements == revokes + TableGrants(m.tables[..i], role)
    {
      assert m.tables[..i + 1][..i] == m.tables[..i];
      var rule := m.tables[i];
      if |rule.privileges| == 0 {
        continue;
      }
      statements := statements + [GrantTable(rule.table, rule.privileges, role)];
    }
    assert m.tables[..|m.tables|] == m.tables;
    if ENDPOINT_LOCK in m.functions {
      statements := statements + [GrantExecute(ENDPOINT_LOCK, role)];
    }
    if m.profile.SupersessionReviewer? {
      statements := statements + [GrantExecute(SUPERSESSION_LOCK, role)];
    }
    if GOVERNANCE_LOCK in m.functions {
      statements := statements + [GrantExecute(GOVERNANCE_LOCK, role)];
    }
    return Some(statements);
  }

  method RequireManifestRelations(m: Manifest, catalog: Catalog) returns (ok: bool)
    ensures ok <==> RelationsPresent(m, catalog)
  {
    var physical: set<string> := {};
    for i := 0 to |catalog.relations|
      invariant physical == Refs(catalog.relations[..i], RelationName)
    {
      RefsStep(catalog.relations, i, RelationName);
      physical := physical + {catalog.relations[i].name};
    }
    assert catalog.relations[..|catalog.relations|] == catalog.relations;
    for i := 0 to |m.tables|
      invariant forall k :: 0 <= k < i ==> m.tables[k].table in TableNames(catalog)
    {
      if m.tables[i].table !in physical {
        return false;
      }
    }
    return true;
  }

  // ----- where every run of the list ends -----

  /** Objects of the policy schema, and the database as far as the role itself is concerned. */
  predicate Replaced(g: Grant, role: Grantee) {
    match g.item
    case Elsewhere(_) => false
    case Database => g.grantee == role
    case _ => g.grantee == role || g.grantee.Everyone?
  }

  function TableGrantsOf(m: Manifest, role: Grantee): set<Grant> {
    set i, p | 0 <= i < |m.tables| && p in m.tables[i].privileges :: Grant(Table(m.tables[i].table), On(p), role, false)
  }

  /** The helper functions the compiler grants. */
  function GrantedFunctions(m: Manifest): set<string> {
    (if ENDPOINT_LOCK in m.functions then {ENDPOINT_LOCK} else {})
    + (if m.profile.SupersessionReviewer? then {SUPERSESSION_LOCK} else {})
    + (if GOVERNANCE_LOCK in m.functions then {GOVERNANCE_LOCK} else {})
  }

  function FunctionGrantsOf(m: Manifest, role: Grantee): set<Grant> {
    set f | f in GrantedFunctions(m) :: Grant(Function(f), Execute, role, false)
  }

  function ManifestGrants(m: Manifest, role: Grantee): set<Grant> {
    {Grant(Database, Connect, role, false), Grant(Schema, Usage, role, false)} + TableGrantsOf(m, role) +
    FunctionGrantsOf(m, role)
  }

  /** Everything outside the policy as it was, and inside it the manifest and nothing else. */
  function Target(acl: set<Grant>, m: Manifest, role: Grantee): set<Grant> {
    (set g | g in acl && !Replaced(g, role)) + ManifestGrants(m, role)
  }

  predicate Hits(catalog: Catalog, st: Statement, g: Grant) {
    g.grantee == st.who && Clears(catalog, st, g.item)
  }

  lemma {:induction false} ExecAppend(catalog: Catalog, acl: set<Grant>, a: seq<Statement>, b: seq<Statement>)
    ensures ExecAll(catalog, acl, a + b) == ExecAll(catalog, ExecAll(catalog, acl, a), b)
  {
    if b == [] {
      assert a + b == a;
    } else {
      ExecAppend(catalog, acl, a, b[..|b| - 1]);
      assert (a + b)[..|a + b| - 1] == a + b[..|b| - 1];
    }
  }

  /** The objects the opening statements clear for this grantee. */
  predicate Opened(catalog: Catalog, g: Grant, role: Grantee) {
    || (g.grantee == role && g.item.Database?)
    || ((g.grantee == role || g.grantee.Everyone?)
        && (g.item.Schema? || Clears(catalog, RevokeAllTables(role), g.item)
            || Clears(catalog, RevokeAllFunctions(role), g.item)))
  }

  predicate EntryGrant(g: Grant, role: Grantee) {
    g == Grant(Database, Connect, role, false) || g == Grant(Schema, Usage, role, false)
  }

  lemma EntryMembers(catalog: Catalog, acl: set<Grant>, role: Grantee, g: Grant)
    requires role.Role?
    ensures var sts :=
            [RevokeDatabase(role), GrantConnect(role), RevokeSchema(Everyone), RevokeSchema(role), GrantUsage(role)];
            g in ExecAll(catalog, acl, sts) <==>
            EntryGrant(g, role)
            || (g in acl && !(g.grantee == role && g.item.Database?)
                && !((g.grantee == role || g.grantee.Everyone?) && g.item.Schema?))
  {
    var s1 := [RevokeDatabase(role)];
    var s2 := s1 + [GrantConnect(role)];
    var s3 := s2 + [RevokeSchema(Everyone)];
    var s4 := s3 + [RevokeSchema(role)];
    var s5 := s4 + [GrantUsage(role)];
    Append(catalog, acl, [], RevokeDatabase(role), g);
    Append(catalog, acl, s1, GrantConnect(role), g);
    Append(catalog, acl, s2, RevokeSchema(Everyone), g);
    Append(catalog, acl, s3, RevokeSchema(role), g);
    Append(catalog, acl, s4, GrantUsage(role), g);
    assert s5 ==
           [RevokeDatabase(role), GrantConnect(role), RevokeSchema(Everyone), RevokeSchema(role), GrantUsage(role)];
    assert [] + [RevokeDatabase(role)] == s1;
  }

  /** One more statement at the end of a list. */
  lemma Append(catalog: Catalog, acl: set<Grant>, sts: seq<Statement>, st: Statement, g: Grant)
    ensures g in ExecAll(catalog, acl, sts + [st]) <==>
            (g in ExecAll(catalog, acl, sts) && !Hits(catalog, st, g)) || g in Added(st)
  {
    assert (sts + [st])[..|sts|] == sts;
  }

  lemma PrologueMembers(catalog: Catalog, acl: set<Grant>, role: Grantee, g: Grant)
    requires role.Role?
    ensures g in ExecAll(catalog, acl, Prologue(role)) <==>
            EntryGrant(g, role) || (g in acl && !Opened(catalog, g, role))
  {
    var s5 := [RevokeDatabase(role), GrantConnect(role), RevokeSchema(Everyone), RevokeSchema(role), GrantUsage(role)];
    EntryMembers(catalog, acl, role, g);
    var s6 := s5 + [RevokeAllTables(Everyone)];
    var s7 := s6 + [RevokeAllTables(role)];
    var s8 := s7 + [RevokeAllFunctions(Everyone)];
    Append(catalog, acl, s5, RevokeAllTables(Everyone), g);
    Append(catalog, acl, s6, RevokeAllTables(role), g);
    Append(catalog, acl, s7, RevokeAllFunctions(Everyone), g);
    Append(catalog, acl, s8, RevokeAllFunctions(role), g);
    assert s8 + [RevokeAllFunctions(role)] == Prologue(role);
  }

  predicate ColumnOf(relations: seq<Relation>, item: Object) {
    item.Column?
    && exists i :: 0 <= i < |relations| && relations[i].name == item.table && item.column in relations[i].columns
  }

  lemma ColumnOfStep(relations: seq<Relation>, item: Object)
    requires relations != []
    ensures var front, last := relations[..|relations| - 1], relations[|relations| - 1];
            ColumnOf(relations, item) <==>
            ColumnOf(front, item) || (item.Column? && last.name == item.table && item.column in last.columns)
  {
    var front := relations[..|relations| - 1];
    if ColumnOf(front, item) {
      var i :| 0 <= i < |front| && front[i].name == item.table && item.column in front[i].columns;
      assert relations[i] == front[i];
    }
  }

  lemma TwoRevokes(catalog: Catalog, acl: set<Grant>, before: seq<Statement>, r: Relation, role: Grantee, g: Grant)
    ensures var one, two := RevokeColumns(r.name, r.columns, Everyone), RevokeColumns(r.name, r.columns, role);
            g in ExecAll(catalog, acl, before + [one, two]) <==>
            g in ExecAll(catalog, acl, before)
            && !((g.grantee == role || g.grantee.Everyone?) && g.item.Column? && r.name == g.item.table
                 && g.item.column in r.columns)
  {
    var one, two := RevokeColumns(r.name, r.columns, Everyone), RevokeColumns(r.name, r.columns, role);
    Append(catalog, acl, before, one, g);
    Append(catalog, acl, before + [one], two, g);
    assert before + [one, two] == before + [one] + [two];
  }

  lemma {:induction false} ColumnRevokeMembers(
    catalog: Catalog, acl: set<Grant>, relations: seq<Relation>, role: Grantee, g: Grant)
    ensures g in ExecAll(catalog, acl, ColumnRevokes(relations, role)) <==>
            g in acl && !((g.grantee == role || g.grantee.Everyone?) && ColumnOf(relations, g.item))
  {
    if relations != [] {
      var front, last := relations[..|relations| - 1], relations[|relations| - 1];
      var before := ColumnRevokes(front, role);
      ColumnRevokeMembers(catalog, acl, front, role, g);
      ColumnOfStep(relations, g.item);
      if last.columns != [] {
        TwoRevokes(catalog, acl, before, last, role, g);
      } else {
        assert before + [] == before;
      }
    }
  }

  lemma RuleGrantStep(rules: seq<TableRule>, role: Grantee, g: Grant)
    requires rules != []
    ensures var front, last := rules[..|rules| - 1], rules[|rules| - 1];
            RuleGrant(rules, role, g) <==>
            RuleGrant(front, role, g) || g in Added(GrantTable(last.table, last.privileges, role))
  {
    var front, last := rules[..|rules| - 1], rules[|rules| - 1];
    if RuleGrant(front, role, g) {
      var i, p :| 0 <= i < |front| && p in front[i].privileges && g == Grant(Table(front[i].table), On(p), role, false);
      assert rules[i] == front[i];
    }
    if p :| p in last.privileges && g == Grant(Table(last.table), On(p), role, false) {
      assert p in rules[|rules| - 1].privileges;
    }
  }

  lemma {:induction false} TableGrantMembers(
    catalog: Catalog, acl: set<Grant>, rules: seq<TableRule>, role: Grantee, g: Grant)
    ensures g in ExecAll(catalog, acl, TableGrants(rules, role)) <==> g in acl || RuleGrant(rules, role, g)
  {
    if rules != [] {
      var front, last := rules[..|rules| - 1], rules[|rules| - 1];
      TableGrantMembers(catalog, acl, front, role, g);
      RuleGrantStep(rules, role, g);
      OneTableGrant(catalog, acl, TableGrants(front, role), last, role, g);
    }
  }

  lemma OneTableGrant(
    catalog: Catalog, acl: set<Grant>, before: seq<Statement>, rule: TableRule, role: Grantee, g: Grant)
    ensures g in ExecAll(catalog, acl, before +
                         (if rule.privileges == [] then [] else [GrantTable(rule.table, rule.privileges, role)]))
            <==> g in ExecAll(catalog, acl, before) || g in Added(GrantTable(rule.table, rule.privileges, role))
  {
    if rule.privileges == [] {
      assert before + [] == before;
    } else {
      Append(catalog, acl, before, GrantTable(rule.table, rule.privileges, role), g);
    }
  }

  lemma WhenMembers(catalog: Catalog, acl: set<Grant>, b: bool, signature: string, role: Grantee, g: Grant)
    ensures g in ExecAll(catalog, acl, When(b, GrantExecute(signature, role))) <==>
            g in acl || (b && g == Grant(Function(signature), Execute, role, false))
  {
    if b {
      Append(catalog, acl, [], GrantExecute(signature, role), g);
      assert [] + [GrantExecute(signature, role)] == [GrantExecute(signature, role)];
    }
  }

  predicate IsExecute(g: Grant, signature: string, role: Grantee) {
    g == Grant(Function(signature), Execute, role, false)
  }

  lemma ThreeGrants(
    catalog: Catalog, acl: set<Grant>, a: bool, b: bool, c: bool, x: string, y: string, z: string, role: Grantee,
    g: Grant)
    ensures g in ExecAll(catalog, acl, When(a, GrantExecute(x, role)) + When(b, GrantExecute(y, role))
                                       + When(c, GrantExecute(z, role))) <==>
            g in acl || (a && IsExecute(g, x, role)) || (b && IsExecute(g, y, role)) || (c && IsExecute(g, z, role))
  {
    var one, two := When(a, GrantExecute(x, role)), When(b, GrantExecute(y, role));
    var three := When(c, GrantExecute(z, role));
    ExecAppend(catalog, acl, one + two, three);
    ExecAppend(catalog, acl, one, two);
    WhenMembers(catalog, acl, a, x, role, g);
    WhenMembers(catalog, ExecAll(catalog, acl, one), b, y, role, g);
    WhenMembers(catalog, ExecAll(catalog, acl, one + two), c, z, role, g);
  }

  lemma FunctionGrantsMeaning(m: Manifest, role: Grantee, g: Grant)
    ensures g in FunctionGrantsOf(m, role) <==>
            || (ENDPOINT_LOCK in m.functions && IsExecute(g, ENDPOINT_LOCK, role))
            || (m.profile.SupersessionReviewer? && IsExecute(g, SUPERSESSION_LOCK, role))
            || (GOVERNANCE_LOCK in m.functions && IsExecute(g, GOVERNANCE_LOCK, role))
  {
  }

  lemma FunctionGrantMembers(catalog: Catalog, acl: set<Grant>, m: Manifest, role: Grantee, g: Grant)
    ensures g in ExecAll(catalog, acl, FunctionGrants(m, role)) <==> g in acl || g in FunctionGrantsOf(m, role)
  {
    ThreeGrants(catalog, acl, ENDPOINT_LOCK in m.functions, m.profile.SupersessionReviewer?,
                GOVERNANCE_LOCK in m.functions, ENDPOINT_LOCK, SUPERSESSION_LOCK, GOVERNANCE_LOCK, role, g);
    FunctionGrantsMeaning(m, role, g);
  }

  /** From any list of grants, running the compiled statements ends in the target. */
  lemma CompiledReachesTarget(catalog: Catalog, acl: set<Grant>, m: Manifest, role: Grantee)
    requires role.Role? && Grounded(catalog, acl)
    ensures ExecAll(catalog, acl, Compiled(m, catalog, role)) == Target(acl, m, role)
  {
    forall g
      ensures g in ExecAll(catalog, acl, Compiled(m, catalog, role)) <==> g in Target(acl, m, role)
    {
      CompiledMembers(catalog, acl, m, role, g);
    }
  }

  lemma CompiledMembers(catalog: Catalog, acl: set<Grant>, m: Manifest, role: Grantee, g: Grant)
    requires role.Role? && Grounded(catalog, acl)
    ensures g in ExecAll(catalog, acl, Compiled(m, catalog, role)) <==> g in Target(acl, m, role)
  {
    var a, b := Prologue(role), ColumnRevokes(catalog.relations, role);
    var c, d := TableGrants(m.tables, role), FunctionGrants(m, role);
    ExecAppend(catalog, acl, a + b + c, d);
    ExecAppend(catalog, acl, a + b, c);
    ExecAppend(catalog, acl, a, b);
    PrologueMembers(catalog, acl, role, g);
    ColumnRevokeMembers(catalog, ExecAll(catalog, acl, a), catalog.relations, role, g);
    TableGrantMembers(catalog, ExecAll(catalog, acl, a + b), m.tables, role, g);
    FunctionGrantMembers(catalog, ExecAll(catalog, acl, a + b + c), m, role, g);
    ClearedIsReplaced(catalog, acl, role, g);
    TargetMembers(acl, m, role, g);
  }

  predicate RuleGrant(rules: seq<TableRule>, role: Grantee, g: Grant) {
    exists i, p :: 0 <= i < |rules| && p in rules[i].privileges && g == Grant(Table(rules[i].table), On(p), role, false)
  }

  lemma TargetMembers(acl: set<Grant>, m: Manifest, role: Grantee, g: Grant)
    ensures g in Target(acl, m, role) <==>
            (g in acl && !Replaced(g, role)) || EntryGrant(g, role) || RuleGrant(m.tables, role, g)
            || g in FunctionGrantsOf(m, role)
  {
  }

  /** What the revokes clear is exactly what the policy replaces. */
  lemma ClearedIsReplaced(catalog: Catalog, acl: set<Grant>, role: Grantee, g: Grant)
    requires role.Role? && Grounded(catalog, acl)
    ensures g in acl ==>
              (Opened(catalog, g, role)
               || ((g.grantee == role || g.grantee.Everyone?) && ColumnOf(catalog.relations, g.item))
               <==> Replaced(g, role))
  {
    if g in acl {
      assert GroundedObject(catalog, g.item);
    }
  }

  /** Installing twice is installing once. */
  lemma TargetIdempotent(acl: set<Grant>, m: Manifest, role: Grantee)
    ensures Target(Target(acl, m, role), m, role) == Target(acl, m, role)
  {
    forall g | g in ManifestGrants(m, role)
      ensures Replaced(g, role)
    {
    }
  }

  /** The target keeps what other roles hold, and leaves PUBLIC nothing in the schema. */
  lemma TargetLeavesOthersAlone(acl: set<Grant>, m: Manifest, role: Grantee, g: Grant)
    requires role.Role?
    ensures g.grantee != role && !g.grantee.Everyone? ==> (g in Target(acl, m, role) <==> g in acl)
    ensures g.item.Elsewhere? ==> (g in Target(acl, m, role) <==> g in acl)
    ensures g.grantee.Everyone? && !g.item.Database? && !g.item.Elsewhere? ==> g !in Target(acl, m, role)
    ensures g.grantee == role && !g.item.Elsewhere? ==> (g in Target(acl, m, role) <==> g in ManifestGrants(m, role))
  {
  }
}
