/** Installing a policy: run the compiled statements, verify the result, or change nothing. */
module RoleInstall {
  import opened Outcomes
  import opened Ordering
  import opened RoleManifest
  import opened RolePolicy
  import opened RoleVerifier

  // ----- one right more, one right fewer -----

  /** Whether a right is one the exactness of a role speaks about. */
  predicate InScope(catalog: Catalog, supported: set<Privilege>, item: Object, right: Right) {
    match item
    case Database => right == Connect || right == CreateIn || right == Temporary
    case Schema => right == Usage || right == CreateIn
    case Table(t) => t in TableNames(catalog) && right.On? && right.privilege in supported
    case Column(t, c) => HasColumn(catalog, t, c) && right.On? && ColumnPrivilege(right.privilege)
    case Function(f) => f in catalog.functions && right == Execute
    case Elsewhere(_) => false
  }

  /** The rights a manifest stands for; a column right is covered by its table's. */
  predicate ManifestRight(m: Manifest, item: Object, right: Right) {
    match item
    case Database => right == Connect
    case Schema => right == Usage
    case Table(t) => right.On? && Allowed(m, t, right.privilege)
    case Column(t, _) => right.On? && Allowed(m, t, right.privilege)
    case Function(f) => right == Execute && f in m.functions
    case Elsewhere(_) => false
  }

  /** A right the manifest does not stand for, one outside the managed schemas, or one the role may grant on. */
  predicate Excess(catalog: Catalog, m: Manifest, role: Grantee, supported: set<Privilege>, g: Grant) {
    || g.item.Elsewhere?
    || (g.grantee == role && g.grantable)
    || (InScope(catalog, supported, g.item, g.right) && !ManifestRight(m, g.item, g.right))
  }

  /** Any further right, to the role or to everyone, makes the verifier reject. */
  lemma OneMoreIsRejected(
    acl: set<Grant>, catalog: Catalog, m: Manifest, name: string, supported: set<Privilege>, standing: Standing,
    g: Grant)
    requires UniqueRules(m) && forall p :: ColumnPrivilege(p) ==> p in supported
    requires g in acl && (g.grantee == Role(name) || g.grantee.Everyone?)
             && Excess(catalog, m, Role(name), supported, g)
    ensures !SnapshotAcceptable(LoadSnapshot(acl, Role(name), catalog, supported, standing), m, GroupExpectation(name))
  {
    AcceptedExactly(acl, catalog, m, name, supported, standing);
    assert Held(acl, Role(name), g.item, g.right);
  }

  /** So does any missing right of the manifest. */
  lemma OneFewerIsRejected(
    acl: set<Grant>, catalog: Catalog, m: Manifest, name: string, supported: set<Privilege>, standing: Standing,
    item: Object, right: Right)
    requires UniqueRules(m) && forall p :: ColumnPrivilege(p) ==> p in supported
    requires ManifestRight(m, item, right) && !item.Column? && !Held(acl, Role(name), item, right)
    ensures !SnapshotAcceptable(LoadSnapshot(acl, Role(name), catalog, supported, standing), m, GroupExpectation(name))
  {
    AcceptedExactly(acl, catalog, m, name, supported, standing);
    if RelationsPresent(m, catalog) && AllSupported(m, supported) && Elements(m.functions) <= catalog.functions {
      match item {
        case Table(t) =>
          var i :| 0 <= i < |m.tables| && m.tables[i].table == t && right.privilege in m.tables[i].privileges;
          assert t in TableNames(catalog) && right.privilege in supported;
        case Function(f) => assert f in Elements(m.functions);
        case _ =>
      }
    }
  }

  // ----- the state an installation ends in -----

  predicate PublicDatabaseClosed(acl: set<Grant>) {
    forall g :: g in acl && g.grantee.Everyone? && g.item.Database? ==> g.right != CreateIn && g.right != Temporary
  }

  /** What the PUBLIC check rejects. */
  predicate PublicClosed(acl: set<Grant>) {
    PublicDatabaseClosed(acl) && forall g :: g in acl && g.grantee.Everyone? ==> g.item.Database? || g.item.Elsewhere?
  }

  lemma TargetPublic(acl: set<Grant>, m: Manifest, role: Grantee)
    requires role.Role?
    ensures PublicClosed(Target(acl, m, role)) <==> PublicDatabaseClosed(acl)
  {
    forall g: Grant | g.grantee.Everyone? && g.item.Database?
      ensures g in Target(acl, m, role) <==> g in acl
    {
      TargetMembers(acl, m, role, g);
    }
    forall g | g in Target(acl, m, role) && g.grantee.Everyone?
      ensures g.item.Database? || g.item.Elsewhere?
    {
      TargetLeavesOthersAlone(acl, m, role, g);
    }
  }

  lemma TargetHeld(acl: set<Grant>, m: Manifest, role: Grantee, item: Object, right: Right)
    requires role.Role? && !item.Database? && !item.Elsewhere?
    ensures Held(Target(acl, m, role), role, item, right) <==>
            Grant(item, right, role, false) in ManifestGrants(m, role)
  {
    forall g: Grant | g.item == item && g.right == right && (g.grantee == role || g.grantee.Everyone?)
      ensures g in Target(acl, m, role) <==> g in ManifestGrants(m, role)
    {
      TargetLeavesOthersAlone(acl, m, role, g);
    }
    forall g | g in ManifestGrants(m, role)
      ensures g.grantee == role && !g.grantable
    {
    }
  }

  lemma TargetDatabase(acl: set<Grant>, m: Manifest, role: Grantee)
    requires role.Role?
    ensures Held(Target(acl, m, role), role, Database, Connect)
    ensures PublicDatabaseClosed(acl) <==>
            !Held(Target(acl, m, role), role, Database, CreateIn)
            && !Held(Target(acl, m, role), role, Database, Temporary)
  {
    assert Grant(Database, Connect, role, false) in Target(acl, m, role);
    forall g: Grant | g.item.Database? && (g.grantee == role || g.grantee.Everyone?) && g.right != Connect
      ensures g in Target(acl, m, role) <==> g in acl && g.grantee.Everyone?
    {
      TargetMembers(acl, m, role, g);
    }
  }

  /** Where the compiler's own choice of functions is the manifest's. */
  predicate FunctionsMatch(m: Manifest) {
    Elements(m.functions) == GrantedFunctions(m)
  }

  lemma TargetTables(acl: set<Grant>, m: Manifest, role: Grantee)
    requires role.Role?
    ensures forall t, p :: Held(Target(acl, m, role), role, Table(t), On(p)) <==> Allowed(m, t, p)
    ensures forall t, c, p :: !Held(Target(acl, m, role), role, Column(t, c), On(p))
    ensures forall f :: Held(Target(acl, m, role), role, Function(f), Execute) <==> f in GrantedFunctions(m)
  {
    forall t, p
      ensures Held(Target(acl, m, role), role, Table(t), On(p)) <==> Allowed(m, t, p)
    {
      TargetHeld(acl, m, role, Table(t), On(p));
    }
    forall t, c, p
      ensures !Held(Target(acl, m, role), role, Column(t, c), On(p))
    {
      TargetHeld(acl, m, role, Column(t, c), On(p));
    }
    forall f
      ensures Held(Target(acl, m, role), role, Function(f), Execute) <==> f in GrantedFunctions(m)
    {
      TargetHeld(acl, m, role, Function(f), Execute);
    }
  }

  /** After the statements the rights are exact, provided PUBLIC was closed out of the database beforehand. */
  lemma TargetExact(acl: set<Grant>, catalog: Catalog, m: Manifest, role: Grantee, supported: set<Privilege>)
    requires role.Role? && RelationsPresent(m, catalog) && GrantedFunctions(m) <= catalog.functions
    ensures ExactRights(Target(acl, m, role), catalog, m, role, supported) <==>
            AllSupported(m, supported) && FunctionsMatch(m) && PublicDatabaseClosed(acl)
  {
    TargetDatabase(acl, m, role);
    TargetHeld(acl, m, role, Schema, Usage);
    TargetHeld(acl, m, role, Schema, CreateIn);
    TargetTables(acl, m, role);
    FunctionsMatchPart(catalog, m);
  }

  lemma FunctionsMatchPart(catalog: Catalog, m: Manifest)
    requires GrantedFunctions(m) <= catalog.functions
    ensures FunctionsMatch(m) <==>
            && Elements(m.functions) <= catalog.functions
            && (forall f :: f in catalog.functions ==> (f in GrantedFunctions(m) <==> f in m.functions))
  {
    var listed := Elements(m.functions);
    assert forall f :: f in listed <==> f in m.functions;
  }

  lemma TargetBesides(acl: set<Grant>, m: Manifest, role: Grantee)
    requires role.Role?
    ensures NothingBesides(Target(acl, m, role), role) <==>
            forall g :: g in acl && (g.grantee == role || g.grantee.Everyone?) ==> !g.item.Elsewhere?
  {
    forall g | g in ManifestGrants(m, role)
      ensures !g.grantable && !g.item.Elsewhere?
    {
    }
    forall g: Grant | g.item.Elsewhere?
      ensures g in Target(acl, m, role) <==> g in acl
    {
      TargetLeavesOthersAlone(acl, m, role, g);
    }
  }

  lemma TargetGrounded(acl: set<Grant>, catalog: Catalog, m: Manifest, role: Grantee)
    requires Grounded(catalog, acl) && RelationsPresent(m, catalog) && GrantedFunctions(m) <= catalog.functions
    ensures Grounded(catalog, Target(acl, m, role))
  {
  }

  // ----- executability -----

  lemma {:induction false} ColumnRevokesExecutable(catalog: Catalog, relations: seq<Relation>, role: Grantee)
    ensures AllExecutable(catalog, ColumnRevokes(relations, role))
  {
    if relations != [] {
      ColumnRevokesExecutable(catalog, relations[..|relations| - 1], role);
    }
  }

  lemma {:induction false} TableGrantsExecutable(catalog: Catalog, rules: seq<TableRule>, role: Grantee)
    requires forall i :: 0 <= i < |rules| ==> rules[i].table in TableNames(catalog)
    ensures AllExecutable(catalog, TableGrants(rules, role))
  {
    if rules != [] {
      TableGrantsExecutable(catalog, rules[..|rules| - 1], role);
    }
  }

  lemma JoinExecutable(catalog: Catalog, a: seq<Statement>, b: seq<Statement>)
    ensures AllExecutable(catalog, a + b) <==> AllExecutable(catalog, a) && AllExecutable(catalog, b)
  {
    if AllExecutable(catalog, a + b) {
      forall i | 0 <= i < |a|
        ensures Executable(catalog, a[i])
      {
        assert (a + b)[i] == a[i];
      }
      forall i | 0 <= i < |b|
        ensures Executable(catalog, b[i])
      {
        assert (a + b)[|a| + i] == b[i];
      }
    }
  }

  lemma FunctionGrantsExecutable(catalog: Catalog, m: Manifest, role: Grantee)
    ensures AllExecutable(catalog, FunctionGrants(m, role)) <==> GrantedFunctions(m) <= catalog.functions
  {
    var a := When(ENDPOINT_LOCK in m.functions, GrantExecute(ENDPOINT_LOCK, role));
    var b := When(m.profile.SupersessionReviewer?, GrantExecute(SUPERSESSION_LOCK, role));
    var c := When(GOVERNANCE_LOCK in m.functions, GrantExecute(GOVERNANCE_LOCK, role));
    JoinExecutable(catalog, a + b, c);
    JoinExecutable(catalog, a, b);
    WhenExecutable(catalog, ENDPOINT_LOCK in m.functions, ENDPOINT_LOCK, role);
    WhenExecutable(catalog, m.profile.SupersessionReviewer?, SUPERSESSION_LOCK, role);
    WhenExecutable(catalog, GOVERNANCE_LOCK in m.functions, GOVERNANCE_LOCK, role);
    assert GrantedFunctions(m) <= catalog.functions <==>
           forall f :: f in GrantedFunctions(m) ==> f in catalog.functions;
  }

  lemma WhenExecutable(catalog: Catalog, b: bool, signature: string, role: Grantee)
    ensures AllExecutable(catalog, When(b, GrantExecute(signature, role))) <==> (b ==> signature in catalog.functions)
  {
    if b {
      assert When(b, GrantExecute(signature, role))[0] == GrantExecute(signature, role);
    }
  }

  lemma CompiledExecutable(catalog: Catalog, m: Manifest, role: Grantee)
    requires RelationsPresent(m, catalog)
    ensures AllExecutable(catalog, Compiled(m, catalog, role)) <==> GrantedFunctions(m) <= catalog.functions
  {
    var a, b := Prologue(role), ColumnRevokes(catalog.relations, role);
    var c, d := TableGrants(m.tables, role), FunctionGrants(m, role);
    ColumnRevokesExecutable(catalog, catalog.relations, role);
    TableGrantsExecutable(catalog, m.tables, role);
    FunctionGrantsExecutable(catalog, m, role);
    JoinExecutable(catalog, a + b + c, d);
    JoinExecutable(catalog, a + b, c);
    JoinExecutable(catalog, a, b);
  }

  // ----- the installer -----

  /** Everything an installation depends on, readable before it starts. */
  ghost predicate Installable(
    acl: set<Grant>, catalog: Catalog, m: Manifest, name: string, supported: set<Privilege>, standing: Standing)
  {
    && StandingAcceptable(standing, GroupExpectation(name)) && standing.configuration == []
    && RelationsPresent(m, catalog) && AllSupported(m, supported)
    && FunctionsMatch(m) && Elements(m.functions) <= catalog.functions
    && PublicDatabaseClosed(acl)
    && forall g :: g in acl && (g.grantee == Role(name) || g.grantee.Everyone?) ==> !g.item.Elsewhere?
  }

  lemma InstalledAccepted(
    acl: set<Grant>, catalog: Catalog, m: Manifest, name: string, supported: set<Privilege>, standing: Standing)
    requires UniqueRules(m) && forall p :: ColumnPrivilege(p) ==> p in supported
    requires RelationsPresent(m, catalog) && GrantedFunctions(m) <= catalog.functions
    ensures (PublicClosed(Target(acl, m, Role(name)))
             && SnapshotAcceptable(LoadSnapshot(Target(acl, m, Role(name)), Role(name), catalog, supported, standing),
                                   m, GroupExpectation(name)))
            <==> Installable(acl, catalog, m, name, supported, standing)
  {
    TargetPublic(acl, m, Role(name));
    AcceptedExactly(Target(acl, m, Role(name)), catalog, m, name, supported, standing);
    TargetExact(acl, catalog, m, Role(name), supported);
    TargetBesides(acl, m, Role(name));
  }

  class AclStore {
    const catalog: Catalog
    var acl: set<Grant>

    constructor (catalog: Catalog, acl: set<Grant>)
      ensures this.catalog == catalog && this.acl == acl
    {
      this.catalog, this.acl := catalog, acl;
    }

    method Execute(st: Statement) returns (ok: bool)
      modifies this
      ensures ok <==> Executable(catalog, st)
      ensures acl == if ok then Exec(catalog, old(acl), st) else old(acl)
    {
      if !Executable(catalog, st) {
        return false;
      }
      acl := (set g | g in acl && !(g.grantee == st.who && Clears(catalog, st, g.item))) + Added(st);
      return true;
    }

    /** The statements in order, stopping at the first that fails. */
    method ExecuteAll(statements: seq<Statement>) returns (ok: bool)
      modifies this
      ensures ok <==> AllExecutable(catalog, statements)
      ensures ok ==> acl == ExecAll(catalog, old(acl), statements)
    {
      ghost var start := acl;
      for i := 0 to |statements|
        invariant acl == ExecAll(catalog, start, statements[..i])
        invariant forall k :: 0 <= k < i ==> Executable(catalog, statements[k])
      {
        assert statements[..i + 1][..i] == statements[..i];
        var done := Execute(statements[i]);
        if !done {
          return false;
        }
      }
      assert statements[..|statements|] == statements;
      return true;
    }

    /**
     One transaction: it succeeds exactly under the conditions that can be read before it
     starts, and then leaves the manifest in place of whatever the schema granted; other
     roles' grants, and everything after a failure, are as they were.
     */
    method InstallPolicy(m: Manifest, name: string, supported: set<Privilege>, standing: Standing) returns (ok: bool)
      requires UniqueRules(m) && forall p :: ColumnPrivilege(p) ==> p in supported
      requires Grounded(catalog, acl)
      modifies this
      ensures ok <==> Installable(old(acl), catalog, m, name, supported, standing)
      ensures acl == if ok then Target(old(acl), m, Role(name)) else old(acl)
      ensures Grounded(catalog, acl)
    {
      var saved := acl;
      var role, e := Role(name), GroupExpectation(name);
      if !StandingAcceptable(standing, e) {
        return false;
      }
      var statements := PolicyStatements(m, catalog, role);
      if statements.None? {
        return false;
      }
      CompiledExecutable(catalog, m, role);
      var done := ExecuteAll(statements.value);
      if !done {
        acl := saved;
        return false;
      }
      CompiledReachesTarget(catalog, saved, m, role);
      InstalledAccepted(saved, catalog, m, name, supported, standing);
      TargetGrounded(saved, catalog, m, role);
      ok := false;
      if PublicClosed(acl) {
        ok := ValidatePrincipalSnapshot(LoadSnapshot(acl, role, catalog, supported, standing), m, e);
      }
      if !ok {
        acl := saved;
      }
    }
  }

  /** A second installation succeeds and changes nothing. */
  lemma InstallAgain(
    acl: set<Grant>, catalog: Catalog, m: Manifest, name: string, supported: set<Privilege>, standing: Standing)
    requires Installable(acl, catalog, m, name, supported, standing)
    ensures Installable(Target(acl, m, Role(name)), catalog, m, name, supported, standing)
    ensures Target(Target(acl, m, Role(name)), m, Role(name)) == Target(acl, m, Role(name))
  {
    TargetIdempotent(acl, m, Role(name));
    TargetPublic(acl, m, Role(name));
    TargetBesides(acl, m, Role(name));
  }

  /** Every shipping manifest names exactly the functions the compiler grants, and only supported privileges. */
  method ShippingManifest(profile: Profile, shipping: seq<string>, serverVersion: int) returns (m: Manifest)
    requires NoDuplicates(shipping)
    ensures UniqueRules(m) && FunctionsMatch(m) && AllSupported(m, SupportedTablePrivileges(serverVersion))
    ensures forall t, p :: Allowed(m, t, p) <==> t in shipping && (p == Select || p in Writes(profile, t))
  {
    m := BuildManifest(profile, shipping);
    LocksDiffer();
    DistinctKeysAsKeys(m.tables, TableOf);
    forall i | 0 <= i < |m.tables|
      ensures m.tables[i].table == shipping[i]
    {
      assert Mapped(m.tables, TableOf)[i] == shipping[i];
    }
    forall t, p
      ensures Allowed(m, t, p) <==> t in shipping && (p == Select || p in Writes(profile, t))
    {
      ManifestAllows(m, profile, shipping, t, p);
    }
  }

  lemma ManifestAllows(m: Manifest, profile: Profile, shipping: seq<string>, t: string, p: Privilege)
    requires |m.tables| == |shipping| && forall i :: 0 <= i < |shipping| ==> m.tables[i].table == shipping[i]
    requires forall i :: 0 <= i < |m.tables| ==>
               Elements(m.tables[i].privileges) == {Select} + Elements(Writes(profile, shipping[i]))
    ensures Allowed(m, t, p) <==> t in shipping && (p == Select || p in Writes(profile, t))
  {
    forall i | 0 <= i < |m.tables|
      ensures p in m.tables[i].privileges <==> p == Select || p in Writes(profile, shipping[i])
    {
      assert p in m.tables[i].privileges <==> p in Elements(m.tables[i].privileges);
      assert p in Writes(profile, shipping[i]) <==> p in Elements(Writes(profile, shipping[i]));
    }
    if t in shipping {
      var i :| 0 <= i < |shipping| && shipping[i] == t;
      assert m.tables[i].table == t;
    }
  }
}
