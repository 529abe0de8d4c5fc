/**
 The role policy read the other way round: who may write each table, what an accepted
 snapshot shows, and which grants stand after an installation.
 */
module PlainRoles {
  import opened Outcomes
  import opened Ordering
  import opened RoleManifest
  import opened RolePolicy
  import opened RoleVerifier
  import opened RoleInstall

  // ----- writers by table -----

  /** Tables that several reviewers insert into. */
  predicate InsertsShared(who: Profile, table: string) {
    || (table == "canonical_graph_edges"
        && (who.SourceClaimReviewer? || who.EndpointReviewer? || who.HistoricalDerivationReviewer?
            || who.SupersessionReviewer? || who.RelationReviewer?))
    || ((table == "canonical_graph_nodes" || table == "admission_decisions")
        && (who.SourceClaimReviewer? || who.EndpointReviewer? || who.HistoricalDerivationReviewer?
            || who.SupersessionReviewer?))
    || ((table == "canonical_ordinary_admission_manifests" || table == "canonical_ordinary_admission_node_bindings"
         || table == "canonical_ordinary_admission_edge_bindings")
        && (who.SourceClaimReviewer? || who.EndpointReviewer? || who.HistoricalDerivationReviewer?))
    || ((table == "canonical_derivations" || table == "canonical_derivation_parents")
        && (who.EndpointReviewer? || who.HistoricalDerivationReviewer?))
  }

  /** Each review record has one writer. */
  predicate InsertsReview(who: Profile, table: string) {
    || (table == "canonical_initial_lineage_registrations" && who.InitialLineageReviewer?)
    || (table == "canonical_contradiction_review_bindings" && who.ContradictionReviewer?)
    || (table == "canonical_withdrawal_events" && who.WithdrawalReviewer?)
    || (table == "source_assessment_events" && who.SourceAssessmentReviewer?)
    || (table == "canonical_source_claim_review_bindings" && who.SourceClaimReviewer?)
    || (table == "source_claim_disposition_review_bindings" && who.SourceClaimReviewer?)
    || (table == "canonical_implements_admissions" && who.RelationReviewer?)
    || (table == "canonical_references_admissions" && who.RelationReviewer?)
    || (table == "canonical_endpoint_review_bindings" && who.EndpointReviewer?)
    || (table == "endpoint_disposition_review_bindings" && who.EndpointReviewer?)
    || (table == "endpoint_review_requests" && who.EndpointReviewer?)
    || (table == "canonical_historical_derivation_reviews" && who.HistoricalDerivationReviewer?)
    || (table == "canonical_supersession_lineages" && who.SupersessionReviewer?)
    || (table == "canonical_supersession_admission_events" && who.SupersessionReviewer?)
    || (table == "canonical_supersession_members" && who.SupersessionReviewer?)
    || (table == "canonical_supersession_replacement_targets" && who.SupersessionReviewer?)
    || (table == "supersession_review_bindings" && who.SupersessionReviewer?)
  }

  /** Sources and extractions belong to the two intakes, alone or together. */
  predicate InsertsIntake(who: Profile, table: string) {
    || ((table == "source_blobs" || table == "extractor_definitions" || table == "extraction_runs"
         || table == "proposal_occurrences" || table == "extraction_attempts" || table == "proposal_batches")
        && (who.Intake? || who.RepositoryIntake?))
    || ((table == "source_manual_review_profiles" || table == "source_snapshots" || table == "extraction_views"
         || table == "span_catalog_entries" || table == "source_intake_requests"
         || table == "external_source_intake_receipts") && who.Intake?)
    || ((table == "repository_snapshots" || table == "source_file_snapshots"
         || table == "repository_snapshot_intake_requests" || table == "repository_extraction_run_requests"
         || table == "repository_source_generations" || table == "repository_source_streams") && who.RepositoryIntake?)
  }

  predicate InsertsCore(who: Profile, table: string) {
    && who.CoreRecords?
    && (|| table == "consistency_watches" || table == "consistency_watch_versions" || table == "consistency_runs"
        || table == "consistency_run_artifacts" || table == "consistency_events" || table == "canonical_propositions"
        || table == "canonical_proposition_bindings" || table == "canonical_proposition_binding_events"
        || table == "external_check_records" || table == "external_representation_records"
        || table == "external_check_representation_links")
  }

  predicate MayInsert(who: Profile, table: string) {
    InsertsShared(who, table) || InsertsReview(who, table) || InsertsIntake(who, table) || InsertsCore(who, table)
  }

  /** Rows that are changed in place: outcomes of proposals, running extractions, heads of streams and lineages. */
  predicate MayUpdate(who: Profile, table: string) {
    || (table == "proposal_occurrences"
        && (who.SourceClaimReviewer? || who.EndpointReviewer? || who.HistoricalDerivationReviewer?
            || who.SupersessionReviewer?))
    || ((table == "extraction_attempts" || table == "proposal_batches") && (who.Intake? || who.RepositoryIntake?))
    || (table == "repository_source_streams" && who.RepositoryIntake?)
    || (table == "canonical_supersession_admission_head" && who.SupersessionReviewer?)
    || ((table == "canonical_proposition_bindings" || table == "consistency_watches") && who.CoreRecords?)
  }

  lemma FewHas(w: seq<Privilege>)
    requires Few(w)
    ensures Insert in w <==> w == [Insert] || w == [Insert, Update]
    ensures Update in w <==> w == [Update] || w == [Insert, Update]
  {
    assert w != [] ==> w[0] in w;
    assert |w| == 2 ==> w[1] in w;
  }

  ghost predicate ByTable(who: Profile, table: string) {
    (Insert in Writes(who, table) <==> MayInsert(who, table))
    && (Update in Writes(who, table) <==> MayUpdate(who, table))
  }

  lemma IntakeByTable(table: string)
    ensures ByTable(Intake, table)
  {
    FewHas(Writes(Intake, table));
  }

  lemma RepositoryIntakeByTable(table: string)
    ensures ByTable(RepositoryIntake, table)
  {
    FewHas(Writes(RepositoryIntake, table));
  }

  lemma CoreRecordsByTable(table: string)
    ensures ByTable(CoreRecords, table)
  {
    FewHas(Writes(CoreRecords, table));
  }

  lemma SupersessionReviewerByTable(table: string)
    ensures ByTable(SupersessionReviewer, table)
  {
    FewHas(Writes(SupersessionReviewer, table));
  }

  lemma SourceClaimReviewerByTable(table: string)
    ensures ByTable(SourceClaimReviewer, table)
  {
    FewHas(Writes(SourceClaimReviewer, table));
  }

  lemma EndpointReviewerByTable(table: string)
    ensures ByTable(EndpointReviewer, table)
  {
    FewHas(Writes(EndpointReviewer, table));
  }

  lemma HistoricalDerivationReviewerByTable(table: string)
    ensures ByTable(HistoricalDerivationReviewer, table)
  {
    FewHas(Writes(HistoricalDerivationReviewer, table));
  }

  lemma RelationReviewerByTable(table: string)
    ensures ByTable(RelationReviewer, table)
  {
    FewHas(Writes(RelationReviewer, table));
  }

  /** Profile by profile the privileges come out as table by table. */
  lemma WritersByTable(who: Profile, table: string)
    ensures Insert in Writes(who, table) <==> MayInsert(who, table)
    ensures Update in Writes(who, table) <==> MayUpdate(who, table)
  {
    match who
    case Intake => IntakeByTable(table);
    case RepositoryIntake => RepositoryIntakeByTable(table);
    case CoreRecords => CoreRecordsByTable(table);
    case SupersessionReviewer => SupersessionReviewerByTable(table);
    case SourceClaimReviewer => SourceClaimReviewerByTable(table);
    case EndpointReviewer => EndpointReviewerByTable(table);
    case HistoricalDerivationReviewer => HistoricalDerivationReviewerByTable(table);
    case RelationReviewer => RelationReviewerByTable(table);
    case _ => OthersByTable(who, table);
  }

  lemma OthersByTable(who: Profile, table: string)
    requires who.InitialLineageReviewer? || who.ContradictionReviewer? || who.WithdrawalReviewer?
             || who.SourceAssessmentReviewer? || who.Query?
    ensures ByTable(who, table)
  {
    FewHas(Writes(who, table));
  }

  lemma WritesKnown(who: Profile, table: string, p: Privilege)
    requires p in Writes(who, table)
    ensures p == Insert || p == Update
  {
    FewHas(Writes(who, table));
  }

  /** A built manifest lets the role read every shipping table, and write what the profile may write. */
  lemma ManifestByTable(m: Manifest, who: Profile, shipping: seq<string>, table: string, p: Privilege)
    requires |m.tables| == |shipping| && forall i :: 0 <= i < |shipping| ==> m.tables[i].table == shipping[i]
    requires forall i :: 0 <= i < |m.tables| ==>
               Elements(m.tables[i].privileges) == {Select} + Elements(Writes(who, shipping[i]))
    ensures Allowed(m, table, p) <==>
            && table in shipping
            && (p == Select || (p == Insert && MayInsert(who, table)) || (p == Update && MayUpdate(who, table)))
  {
    ManifestAllows(m, who, shipping, table, p);
    WritersByTable(who, table);
    if p in Writes(who, table) {
      WritesKnown(who, table, p);
    }
  }

  /** Which runtime may lock which rows: two writers lock endpoints, one lock targets, every reviewer locks governance.
      */
  lemma LocksByProfile(who: Profile)
    ensures LocksEndpoints(who) <==> who == EndpointReviewer || who == HistoricalDerivationReviewer
    ensures LocksGovernance(who) <==>
            who !in {Query, Intake, RepositoryIntake, CoreRecords, SourceClaimReviewer}
  {
  }

  // ----- an accepted snapshot -----

  /** No attribute beyond the login flag, and no inheritance for a login. */
  ghost predicate PlainAttributes(f: RoleFacts, e: Expectation) {
    && f.name == e.name && f.canLogin == e.login && (e.login ==> !f.inherits)
    && !f.superuser && !f.bypassRls && !f.createDb && !f.createRole && !f.replication
  }

  /** None, or a single one that can be set and neither inherited nor administered. */
  ghost predicate PlainMemberships(ms: seq<Membership>, allowed: Option<string>) {
    && (allowed.None? ==> |ms| == 0)
    && (allowed.Some? ==>
          |ms| == 1 && ms[0].role == allowed.value && !ms[0].admin && !ms[0].inherits && ms[0].sets)
  }

  ghost predicate PlainScopes(s: Snapshot, e: Expectation) {
    && s.connect && !s.createDatabase && !s.temporary && !s.createSchema
    && (e.requireUsage ==> s.usage) && (e.allowedMembership.Some? ==> !s.usage)
    && (forall g :: g !in s.grantOptions) && (forall g :: g !in s.unmanifested)
  }

  ghost predicate Ruled(m: Manifest, table: string) {
    exists i :: 0 <= i < |m.tables| && m.tables[i].table == table
  }

  /** What a table may show: only manifest rights, and for an exact role all of them. */
  ghost predicate PlainTables(s: Snapshot, m: Manifest, e: Expectation) {
    && (forall t, p :: t in s.tables && p in s.tables[t] && s.tables[t][p] ==>
          e.allowedMembership.None? && Allowed(m, t, p))
    && (forall c :: c in s.columns ==> e.allowedMembership.None? && Allowed(m, c.table, c.privilege))
    && (e.exact ==> forall t :: Ruled(m, t) ==>
          t in s.tables && forall p :: Allowed(m, t, p) ==> p in s.tables[t] && s.tables[t][p])
  }

  ghost predicate PlainSnapshot(s: Snapshot, m: Manifest, e: Expectation) {
    && PlainAttributes(s.standing.facts, e) && PlainMemberships(s.standing.memberships, e.allowedMembership)
    && (e.rejectAdminMembers ==> |s.standing.adminMembers| == 0) && s.standing.owned == 0
    && |s.standing.configuration| == 0 && PlainScopes(s, e)
    && (forall f :: f in s.functions <==> !e.login && f in m.functions)
    && PlainTables(s, m, e)
  }

  lemma WantedPlainly(m: Manifest, e: Expectation, table: string, p: Privilege)
    requires UniqueRules(m)
    ensures Wanted(ExpectedTables(m.tables), e, table, p) <==> e.allowedMembership.None? && Allowed(m, table, p)
    ensures table in ExpectedTables(m.tables) <==> Ruled(m, table)
    ensures table in ExpectedTables(m.tables) && p in ExpectedTables(m.tables)[table] <==> Allowed(m, table, p)
  {
    ExpectedMeansAllowed(m.tables);
  }

  /** One table: nothing beyond the manifest, and for an exact role all that it rules. */
  ghost predicate PlainTable(s: Snapshot, m: Manifest, e: Expectation, t: string)
    requires t in s.tables
  {
    && (forall p :: p in s.tables[t] && s.tables[t][p] ==> e.allowedMembership.None? && Allowed(m, t, p))
    && (e.exact && Ruled(m, t) ==> forall p :: Allowed(m, t, p) ==> p in s.tables[t] && s.tables[t][p])
  }

  lemma TablePlainly(s: Snapshot, m: Manifest, e: Expectation, t: string)
    requires UniqueRules(m) && t in s.tables
    ensures TableAsExpected(ExpectedTables(m.tables), e, t, s.tables[t]) <==> PlainTable(s, m, e, t)
  {
    forall p
      ensures Wanted(ExpectedTables(m.tables), e, t, p) <==> e.allowedMembership.None? && Allowed(m, t, p)
      ensures t in ExpectedTables(m.tables) <==> Ruled(m, t)
      ensures t in ExpectedTables(m.tables) && p in ExpectedTables(m.tables)[t] <==> Allowed(m, t, p)
    {
      WantedPlainly(m, e, t, p);
    }
  }

  lemma TablesPlainly(s: Snapshot, m: Manifest, e: Expectation)
    requires UniqueRules(m)
    ensures TablesAcceptable(s, ExpectedTables(m.tables), e) <==> PlainTables(s, m, e)
  {
    var expected := ExpectedTables(m.tables);
    forall t | t in s.tables
      ensures TableAsExpected(expected, e, t, s.tables[t]) <==> PlainTable(s, m, e, t)
    {
      TablePlainly(s, m, e, t);
    }
    forall c | c in s.columns
      ensures Wanted(expected, e, c.table, c.privilege) <==>
              e.allowedMembership.None? && Allowed(m, c.table, c.privilege)
    {
      WantedPlainly(m, e, c.table, c.privilege);
    }
    forall t
      ensures t in expected <==> Ruled(m, t)
    {
      WantedPlainly(m, e, t, Select);
    }
    if PlainTables(s, m, e) {
      forall t | t in s.tables
        ensures PlainTable(s, m, e, t)
      {
      }
    }
  }

  /** Acceptance field by field, for group roles and for login sessions. */
  lemma SnapshotPlainly(s: Snapshot, m: Manifest, e: Expectation)
    requires UniqueRules(m)
    ensures SnapshotAcceptable(s, m, e) <==> PlainSnapshot(s, m, e)
  {
    TablesPlainly(s, m, e);
  }

  // ----- an installation -----

  /** The manifest's own grants: connect, use the schema, the ruled tables and the listed functions. */
  ghost predicate FromManifest(m: Manifest, name: string, g: Grant) {
    && g.grantee == Role(name) && !g.grantable
    && match g.item
       case Database => g.right == Connect
       case Schema => g.right == Usage
       case Table(t) => g.right.On? && Allowed(m, t, g.right.privilege)
       case Function(f) => g.right == Execute && f in m.functions
       case _ => false
  }

  /** Not touched: other schemas, other roles, and what everyone has on the database. */
  ghost predicate Untouched(name: string, g: Grant) {
    || g.item.Elsewhere?
    || (g.grantee != Role(name) && !g.grantee.Everyone?)
    || (g.grantee.Everyone? && g.item.Database?)
  }

  /** Which grants stand after the statements. */
  lemma GrantsAfter(acl: set<Grant>, m: Manifest, name: string, g: Grant)
    requires FunctionsMatch(m)
    ensures g in Target(acl, m, Role(name)) <==> (g in acl && Untouched(name, g)) || FromManifest(m, name, g)
  {
    assert g.item.Function? ==>
           (g.item.signature in GrantedFunctions(m) <==> g.item.signature in Elements(m.functions));
    assert g in ManifestGrants(m, Role(name)) <==> FromManifest(m, name, g);
  }

  /** Ready: a safe role, the manifest's tables and functions in place, and nothing of the role or PUBLIC in the way. */
  ghost predicate Ready(
    acl: set<Grant>, catalog: Catalog, m: Manifest, name: string, supported: set<Privilege>, standing: Standing)
  {
    && PlainAttributes(standing.facts, GroupExpectation(name)) && |standing.memberships| == 0
    && |standing.adminMembers| == 0 && standing.owned == 0 && |standing.configuration| == 0
    && (forall t :: Ruled(m, t) ==> exists r :: r in catalog.relations && r.name == t)
    && (forall t, p :: Allowed(m, t, p) ==> p in supported)
    && (forall f :: f in m.functions ==> f in catalog.functions)
    && (forall f :: f in m.functions <==>
          || (f == ENDPOINT_LOCK && f in m.functions) || (f == GOVERNANCE_LOCK && f in m.functions)
          || (f == SUPERSESSION_LOCK && m.profile == SupersessionReviewer))
    && (forall g :: g in acl && g.grantee.Everyone? && g.item.Database? ==> g.right != CreateIn && g.right != Temporary)
    && (forall g :: g in acl && g.item.Elsewhere? ==> g.grantee != Role(name) && !g.grantee.Everyone?)
  }

  lemma FunctionsMatchPlainly(m: Manifest)
    ensures FunctionsMatch(m) <==>
            forall f :: f in m.functions <==>
              || (f == ENDPOINT_LOCK && f in m.functions) || (f == GOVERNANCE_LOCK && f in m.functions)
              || (f == SUPERSESSION_LOCK && m.profile == SupersessionReviewer)
  {
    forall f
      ensures f in GrantedFunctions(m) <==>
              || (f == ENDPOINT_LOCK && f in m.functions) || (f == GOVERNANCE_LOCK && f in m.functions)
              || (f == SUPERSESSION_LOCK && m.profile == SupersessionReviewer)
    {
    }
    assert forall f :: f in Elements(m.functions) <==> f in m.functions;
  }

  lemma RelationsPlainly(m: Manifest, catalog: Catalog)
    ensures RelationsPresent(m, catalog) <==>
            forall t :: Ruled(m, t) ==> exists r :: r in catalog.relations && r.name == t
  {
    RefsMembers(catalog.relations, RelationName);
    forall t
      ensures t in TableNames(catalog) <==> exists r :: r in catalog.relations && r.name == t
    {
      assert forall r :: r in catalog.relations ==> RelationName(r) == r.name;
    }
    if forall t :: Ruled(m, t) ==> t in TableNames(catalog) {
      forall i | 0 <= i < |m.tables|
        ensures m.tables[i].table in TableNames(catalog)
      {
        assert Ruled(m, m.tables[i].table);
      }
    }
  }

  lemma SupportedPlainly(m: Manifest, supported: set<Privilege>)
    ensures AllSupported(m, supported) <==> forall t, p :: Allowed(m, t, p) ==> p in supported
  {
    if forall t, p :: Allowed(m, t, p) ==> p in supported {
      forall i, p | 0 <= i < |m.tables| && p in m.tables[i].privileges
        ensures p in supported
      {
        assert Allowed(m, m.tables[i].table, p);
      }
    }
  }

  /** When an installation succeeds, read off the role, the catalogue and the grants. */
  lemma InstallablePlainly(
    acl: set<Grant>, catalog: Catalog, m: Manifest, name: string, supported: set<Privilege>, standing: Standing)
    ensures Installable(acl, catalog, m, name, supported, standing) <==>
            Ready(acl, catalog, m, name, supported, standing)
  {
    FunctionsMatchPlainly(m);
    RelationsPlainly(m, catalog);
    SupportedPlainly(m, supported);
    assert Elements(m.functions) <= catalog.functions <==> forall f :: f in m.functions ==> f in catalog.functions by {
      assert forall f :: f in Elements(m.functions) <==> f in m.functions;
    }
  }
}
