/** The closed capability manifests, one per runtime profile. */
module RoleManifest {
  import opened Ordering

  datatype Profile =
    | InitialLineageReviewer | ContradictionReviewer | WithdrawalReviewer | SourceAssessmentReviewer | Query | Intake
    | SourceClaimReviewer | RelationReviewer | EndpointReviewer | HistoricalDerivationReviewer | RepositoryIntake
    | CoreRecords | SupersessionReviewer

  datatype Privilege = Select | Insert | Update | Delete | Truncate | References | Trigger | Maintain

  datatype TableRule = TableRule(table: string, privileges: seq<Privilege>)

  datatype Manifest = Manifest(profile: Profile, tables: seq<TableRule>, functions: seq<string>)

  const ENDPOINT_LOCK := "canonical_endpoint_lock_nodes_v1(text[])"
  const SUPERSESSION_LOCK := "canonical_supersession_lock_targets_v1(text[])"
  const GOVERNANCE_LOCK := "evidence_governance_lock_v1(regclass)"

  function TableOf(rule: TableRule): string { rule.table }

  predicate OrdinaryAdmissionTable(table: string) {
    || table == "canonical_graph_nodes" || table == "canonical_graph_edges" || table == "admission_decisions"
    || table == "canonical_ordinary_admission_manifests" || table == "canonical_ordinary_admission_node_bindings"
    || table == "canonical_ordinary_admission_edge_bindings"
  }

  predicate DerivationTable(table: string) {
    table == "canonical_derivations" || table == "canonical_derivation_parents"
  }

  predicate ConsistencyTable(table: string) {
    || table == "consistency_watches" || table == "consistency_watch_versions" || table == "consistency_runs"
    || table == "consistency_run_artifacts" || table == "consistency_events" || table == "canonical_propositions"
    || table == "canonical_proposition_bindings" || table == "canonical_proposition_binding_events"
    || table == "external_check_records" || table == "external_representation_records"
    || table == "external_check_representation_links"
  }

  /** At most one of each write, INSERT before UPDATE. */
  predicate Few(w: seq<Privilege>) {
    w == [] || w == [Insert] || w == [Update] || w == [Insert, Update]
  }

  function Inserting(yes: bool): (w: seq<Privilege>)
    ensures w == [] || w == [Insert]
  {
    if yes then [Insert] else []
  }

  function Updating(yes: bool): (w: seq<Privilege>)
    ensures w == [] || w == [Update]
  {
    if yes then [Update] else []
  }

  function IntakeWrites(table: string): (w: seq<Privilege>)
    ensures Few(w)
  {
    if table == "extraction_attempts" || table == "proposal_batches" then [Insert, Update]
    else Inserting(
      || table == "source_manual_review_profiles" || table == "source_blobs" || table == "source_snapshots"
      || table == "extraction_views" || table == "span_catalog_entries" || table == "source_intake_requests"
      || table == "external_source_intake_receipts" || table == "extractor_definitions" || table == "extraction_runs"
      || table == "proposal_occurrences")
  }

  function RepositoryIntakeWrites(table: string): (w: seq<Privilege>)
    ensures Few(w)
  {
    if table == "extraction_attempts" || table == "proposal_batches" || table == "repository_source_streams"
    then [Insert, Update]
    else Inserting(
      || table == "source_blobs" || table == "repository_snapshots" || table == "source_file_snapshots"
      || table == "repository_snapshot_intake_requests" || table == "extractor_definitions"
         || table == "extraction_runs"
      || table == "repository_extraction_run_requests" || table == "proposal_occurrences"
      || table == "repository_source_generations")
  }

  function SourceClaimReviewerWrites(table: string): (w: seq<Privilege>)
    ensures Few(w)
  {
    if OrdinaryAdmissionTable(table) || table == "canonical_source_claim_review_bindings"
       || table == "source_claim_disposition_review_bindings" then [Insert]
    else Updating(table == "proposal_occurrences")
  }

  function ReviewerWrites(inserts: bool, table: string): (w: seq<Privilege>)
    ensures Few(w)
  {
    if inserts then [Insert] else Updating(table == "proposal_occurrences")
  }

  predicate EndpointTable(table: string) {
    || OrdinaryAdmissionTable(table) || DerivationTable(table) || table == "canonical_endpoint_review_bindings"
    || table == "endpoint_disposition_review_bindings" || table == "endpoint_review_requests"
  }

  predicate HistoricalTable(table: string) {
    OrdinaryAdmissionTable(table) || DerivationTable(table) || table == "canonical_historical_derivation_reviews"
  }

  predicate SupersessionTable(table: string) {
    || table == "canonical_graph_nodes" || table == "canonical_graph_edges" || table == "admission_decisions"
    || table == "canonical_supersession_lineages" || table == "canonical_supersession_admission_events"
    || table == "canonical_supersession_members" || table == "canonical_supersession_replacement_targets"
    || table == "supersession_review_bindings"
  }

  function SupersessionWrites(table: string): (w: seq<Privilege>)
    ensures Few(w)
  {
    if SupersessionTable(table) then [Insert]
    else Updating(table == "proposal_occurrences" || table == "canonical_supersession_admission_head")
  }

  function CoreRecordWrites(table: string): (w: seq<Privilege>)
    ensures Few(w)
  {
    Inserting(ConsistencyTable(table)) +
    Updating(table == "canonical_proposition_bindings" || table == "consistency_watches")
  }

  predicate RelationTable(table: string) {
    table == "canonical_graph_edges" || table == "canonical_implements_admissions"
    || table == "canonical_references_admissions"
  }

  /** The privileges a profile adds to SELECT on one table. */
  function Writes(profile: Profile, table: string): (w: seq<Privilege>)
    ensures Few(w)
  {
    match profile
    case InitialLineageReviewer => Inserting(table == "canonical_initial_lineage_registrations")
    case ContradictionReviewer => Inserting(table == "canonical_contradiction_review_bindings")
    case WithdrawalReviewer => Inserting(table == "canonical_withdrawal_events")
    case SourceAssessmentReviewer => Inserting(table == "source_assessment_events")
    case Query => []
    case Intake => IntakeWrites(table)
    case SourceClaimReviewer => SourceClaimReviewerWrites(table)
    case RelationReviewer => Inserting(RelationTable(table))
    case EndpointReviewer => ReviewerWrites(EndpointTable(table), table)
    case HistoricalDerivationReviewer => ReviewerWrites(HistoricalTable(table), table)
    case RepositoryIntake => RepositoryIntakeWrites(table)
    case CoreRecords => CoreRecordWrites(table)
    case SupersessionReviewer => SupersessionWrites(table)
  }

  predicate LocksEndpoints(profile: Profile) {
    profile.EndpointReviewer? || profile.HistoricalDerivationReviewer?
  }

  predicate LocksGovernance(profile: Profile) {
    || profile.InitialLineageReviewer? || profile.SupersessionReviewer? || profile.RelationReviewer?
    || profile.ContradictionReviewer? || profile.WithdrawalReviewer? || profile.SourceAssessmentReviewer?
    || profile.EndpointReviewer? || profile.HistoricalDerivationReviewer?
  }

  /** Only reading and the two writes the runtimes need, each at most once. */
  predicate Modest(privileges: seq<Privilege>) {
    && NoDuplicates(privileges) && Select in privileges
    && forall p :: p in privileges ==> p == Select || p == Insert || p == Update
  }

  lemma FewIsModest(w: seq<Privilege>)
    requires Few(w)
    ensures Modest([Select] + w)
  {
  }

  lemma WritesModest(profile: Profile, table: string)
    ensures Modest([Select] + Writes(profile, table))
    ensures profile.Query? ==> Writes(profile, table) == []
  {
    FewIsModest(Writes(profile, table));
  }

  function PrivilegeName(p: Privilege): string {
    match p
    case Select => "SELECT"
    case Insert => "INSERT"
    case Update => "UPDATE"
    case Delete => "DELETE"
    case Truncate => "TRUNCATE"
    case References => "REFERENCES"
    case Trigger => "TRIGGER"
    case Maintain => "MAINTAIN"
  }

  lemma SortedModest(privileges: seq<Privilege>)
    requires Modest(privileges)
    ensures var s := SortBy(privileges, PrivilegeName); Modest(s) && Elements(s) == Elements(privileges)
  {
    var s := SortBy(privileges, PrivilegeName);
    SortFacts(privileges, PrivilegeName);
    assert Elements(s) == Elements(privileges);
    NoDuplicatesSize(privileges);
    NoDuplicatesSize(s);
  }

  lemma RuleModest(profile: Profile, table: string)
    ensures var s := SortBy([Select] + Writes(profile, table), PrivilegeName);
            Modest(s) && Elements(s) == {Select} + Elements(Writes(profile, table))
  {
    WritesModest(profile, table);
    SortedModest([Select] + Writes(profile, table));
    assert Elements([Select] + Writes(profile, table)) == {Select} + Elements(Writes(profile, table));
  }

  /** Every shipping table is readable, nothing is deletable, and helper functions follow the profile. */
  method BuildManifest(profile: Profile, shipping: seq<string>) returns (m: Manifest)
    ensures m.profile == profile && Mapped(m.tables, TableOf) == shipping
    ensures forall i :: 0 <= i < |m.tables| ==>
              Modest(m.tables[i].privileges)
              && Elements(m.tables[i].privileges) == {Select} + Elements(Writes(profile, shipping[i]))
    ensures NoDuplicates(m.functions)
    ensures Elements(m.functions) == (if LocksEndpoints(profile) then {ENDPOINT_LOCK} else {})
                                     + (if profile.SupersessionReviewer? then {SUPERSESSION_LOCK} else {})
                                     + (if LocksGovernance(profile) then {GOVERNANCE_LOCK} else {})
  {
    var rules: seq<TableRule> := [];
    for i := 0 to |shipping|
      invariant |rules| == i
      invariant forall k :: 0 <= k < i ==>
                  && rules[k].table == shipping[k] && Modest(rules[k].privileges)
                  && Elements(rules[k].privileges) == {Select} + Elements(Writes(profile, shipping[k]))
    {
      RuleModest(profile, shipping[i]);
      var privileges := SortBy([Select] + Writes(profile, shipping[i]), PrivilegeName);
      rules := rules + [TableRule(shipping[i], privileges)];
    }
    var functions: seq<string> := [];
    if LocksEndpoints(profile) {
      functions := [ENDPOINT_LOCK];
    }
    if profile.SupersessionReviewer? {
      functions := [SUPERSESSION_LOCK];
    }
    LocksDiffer();
    if LocksGovernance(profile) {
      functions := functions + [GOVERNANCE_LOCK];
    }
    m := Manifest(profile, rules, functions);
    assert Mapped(m.tables, TableOf) == shipping;
  }

  lemma LocksDiffer()
    ensures ENDPOINT_LOCK != SUPERSESSION_LOCK && ENDPOINT_LOCK != GOVERNANCE_LOCK
            && SUPERSESSION_LOCK != GOVERNANCE_LOCK
  {
    assert |ENDPOINT_LOCK| == 40 && |SUPERSESSION_LOCK| == 46 && |GOVERNANCE_LOCK| == 37;
  }
}
