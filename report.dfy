/**
 * The run as a whole: select the tenants, reconcile each one in selection
 * order, collect the summary and missing-user rows, count the tenants in
 * error and decide the exit code.
 */
module Report {
  import opened Wrappers
  import opened Store
  import opened Keys
  import opened Text
  import opened Selection
  import opened Reconcile

  /** The command-line values the engine reads (connection and file names are not modelled). */
  datatype Args = Args(environment: string, clusterIndex: string, requireUserClusterMatch: string)

  function ConfigOf(a: Args): Config
  {
    Config(a.environment, a.clusterIndex, BoolArg(a.requireUserClusterMatch))
  }

  /** One row of the summary table; the field names follow its CSV columns. */
  datatype SummaryRow = SummaryRow(
    environment: string,
    clusterIndex: string,
    tenantId: string,
    tenantInPsm: string,
    entityUsers: string,
    psmUsers: string,
    usersMatch: string)

  /** One row of the missing-users table. */
  datatype MissingRow = MissingRow(
    environment: string,
    clusterIndex: string,
    tenantId: string,
    missingUserKeyType: string,
    missingUserKeyValue: string)

  /** CSV header of the summary table. */
  const SummaryColumns: seq<string> :=
    ["environment", "cluster_index", "tenant_id", "tenant_in_psm", "entity_users", "psm_users", "users_match"]

  /**
   * CSV header of the missing-users table. When tenants were checked and none
   * has a missing user, a file holding only this header is written; when no
   * tenant is selected, the run ends before any file is written.
   */
  const MissingColumns: seq<string> :=
    ["environment", "cluster_index", "tenant_id", "missing_user_key_type", "missing_user_key_value"]

  /** Everything a run produces. */
  datatype Outcome = Outcome(summaryRows: seq<SummaryRow>, missingRows: seq<MissingRow>, errors: nat, exitCode: int)

  function YesNo(b: bool): string
  {
    if b then "YES" else "NO"
  }

  function SummaryOf(cfg: Config, r: TenantResult): SummaryRow
  {
    SummaryRow(cfg.environment, cfg.clusterIndex, r.tenantId, YesNo(r.tenantFound),
               DecimalString(r.sourceUserCount), DecimalString(r.destUserCount), YesNo(r.usersMatch))
  }

  function MissingRowOf(cfg: Config, t: string, k: UserKey): MissingRow
  {
    MissingRow(cfg.environment, cfg.clusterIndex, t, k.kind, k.value)
  }

  /** The summary rows of several tenants, one per result and in the same order. */
  function Summaries(cfg: Config, rs: seq<TenantResult>): seq<SummaryRow>
  {
    seq(|rs|, i requires 0 <= i < |rs| => SummaryOf(cfg, rs[i]))
  }

  /**
   * A summary row as the dictionary handed to the CSV writer. Its keys are
   * exactly the summary header's columns, so the header taken from the first
   * row fits every row.
   */
  function SummaryFields(row: SummaryRow): (m: map<string, string>)
    ensures forall c :: c in m <==> c in SummaryColumns
    ensures |m| == |SummaryColumns|
  {
    map["environment" := row.environment, "cluster_index" := row.clusterIndex, "tenant_id" := row.tenantId,
        "tenant_in_psm" := row.tenantInPsm, "entity_users" := row.entityUsers, "psm_users" := row.psmUsers,
        "users_match" := row.usersMatch]
  }

  /**
   * A missing-user row as the dictionary handed to the CSV writer. Its keys
   * are exactly the fixed header written when no user is missing, so both
   * cases of the missing-users file share one header.
   */
  function MissingFields(row: MissingRow): (m: map<string, string>)
    ensures forall c :: c in m <==> c in MissingColumns
    ensures |m| == |MissingColumns|
  {
    map["environment" := row.environment, "cluster_index" := row.clusterIndex, "tenant_id" := row.tenantId,
        "missing_user_key_type" := row.missingUserKeyType, "missing_user_key_value" := row.missingUserKeyValue]
  }

  /** The missing-user rows of one tenant, in the order of its missing list. */
  function MissingRowsOf(cfg: Config, r: TenantResult): seq<MissingRow>
  {
    seq(|r.missingInDest|, j requires 0 <= j < |r.missingInDest| => MissingRowOf(cfg, r.tenantId, r.missingInDest[j]))
  }

  /** The missing-user rows of several tenants, tenant after tenant. */
  function MissingRows(cfg: Config, rs: seq<TenantResult>): seq<MissingRow>
  {
    if rs == [] then [] else MissingRows(cfg, rs[..|rs| - 1]) + MissingRowsOf(cfg, rs[|rs| - 1])
  }

  /** How many of the results are in error. */
  function ErrorCount(rs: seq<TenantResult>): (n: nat)
    ensures n <= |rs|
    ensures n == 0 <==> forall i :: 0 <= i < |rs| ==> !HasError(rs[i])
  {
    if rs == [] then 0
    else
      var init := rs[..|rs| - 1];
      assert forall i :: 0 <= i < |init| ==> init[i] == rs[i];
      ErrorCount(init) + (if HasError(rs[|rs| - 1]) then 1 else 0)
  }

  lemma MissingRowsSnoc(cfg: Config, rs: seq<TenantResult>, i: nat)
    requires i < |rs|
    ensures MissingRows(cfg, rs[..i + 1]) == MissingRows(cfg, rs[..i]) + MissingRowsOf(cfg, rs[i])
  {
    assert rs[..i + 1][..i] == rs[..i];
  }

  lemma SummariesSnoc(cfg: Config, rs: seq<TenantResult>, i: nat)
    requires i < |rs|
    ensures Summaries(cfg, rs[..i + 1]) == Summaries(cfg, rs[..i]) + [SummaryOf(cfg, rs[i])]
  {
  }

  lemma ErrorCountSnoc(rs: seq<TenantResult>, i: nat)
    requires i < |rs|
    ensures ErrorCount(rs[..i + 1]) == ErrorCount(rs[..i]) + (if HasError(rs[i]) then 1 else 0)
  {
    assert rs[..i + 1][..i] == rs[..i];
  }

  /** The results of the selected tenants, in selection order. */
  function ResultsFor(cfg: Config, entity: seq<Record>, psm: seq<Record>, ids: seq<string>): seq<TenantResult>
  {
    seq(|ids|, i requires 0 <= i < |ids| => Reconciled(cfg, entity, psm, ids[i]))
  }

  /** Appends the missing-user rows of one tenant, one at a time. */
  method AppendMissing(cfg: Config, r: TenantResult, rows: seq<MissingRow>) returns (out: seq<MissingRow>)
    ensures out == rows + MissingRowsOf(cfg, r)
  {
    out := rows;
    for j := 0 to |r.missingInDest|
      invariant out == rows + MissingRowsOf(cfg, r)[..j]
    {
      assert MissingRowsOf(cfg, r)[..j + 1] == MissingRowsOf(cfg, r)[..j] + [MissingRowOf(cfg, r.tenantId, r.missingInDest[j])];
      out := out + [MissingRowOf(cfg, r.tenantId, r.missingInDest[j])];
    }
    assert MissingRowsOf(cfg, r)[..|r.missingInDest|] == MissingRowsOf(cfg, r);
  }

  /** The per-tenant loop: reconcile every id, in order, and gather rows and errors. */
  method Collect(cfg: Config, entity: seq<Record>, psm: seq<Record>, ids: seq<string>)
    returns (summary: seq<SummaryRow>, missing: seq<MissingRow>, errors: nat)
    ensures summary == Summaries(cfg, ResultsFor(cfg, entity, psm, ids))
    ensures missing == MissingRows(cfg, ResultsFor(cfg, entity, psm, ids))
    ensures errors == ErrorCount(ResultsFor(cfg, entity, psm, ids))
  {
    ghost var rs := ResultsFor(cfg, entity, psm, ids);
    summary, missing, errors := [], [], 0;
    for i := 0 to |ids|
      invariant summary == Summaries(cfg, rs[..i])
      invariant missing == MissingRows(cfg, rs[..i])
      invariant errors == ErrorCount(rs[..i])
    {
      var r := ReconcileTenant(cfg, entity, psm, ids[i]);
      assert r == rs[i];
      MissingRowsSnoc(cfg, rs, i);
      ErrorCountSnoc(rs, i);
      SummariesSnoc(cfg, rs, i);
      summary := summary + [SummaryOf(cfg, r)];
      missing := AppendMissing(cfg, r, missing);
      if HasError(r) {
        errors := errors + 1;
      }
    }
    assert rs[..|ids|] == rs;
  }

  /** No tenant is in error exactly when every tenant is present and has the same user keys on both sides. */
  lemma NoErrorsIffAllReconciled(cfg: Config, entity: seq<Record>, psm: seq<Record>, ids: seq<string>)
    ensures ErrorCount(ResultsFor(cfg, entity, psm, ids)) == 0 <==>
      forall i :: 0 <= i < |ids| ==>
        TenantInDest(cfg, psm, ids[i]) && SourceUserKeys(cfg, entity, ids[i]) == DestUserKeys(cfg, psm, ids[i])
  {
    var rs := ResultsFor(cfg, entity, psm, ids);
    forall i | 0 <= i < |ids|
      ensures !HasError(rs[i]) <==>
        TenantInDest(cfg, psm, ids[i]) && SourceUserKeys(cfg, entity, ids[i]) == DestUserKeys(cfg, psm, ids[i])
    {
      NoErrorIffSameKeys(cfg, entity, psm, ids[i]);
    }
  }

  /** `main()` from the selection query to the exit code, on in-memory collections. */
  method Run(args: Args, entity: seq<Record>, psm: seq<Record>) returns (out: Outcome)
    ensures var cfg := ConfigOf(args);
      var ids := SelectedTenants(cfg.environment, cfg.clusterIndex, entity);
      && out.summaryRows == Summaries(cfg, ResultsFor(cfg, entity, psm, ids))
      && out.missingRows == MissingRows(cfg, ResultsFor(cfg, entity, psm, ids))
      && out.errors == ErrorCount(ResultsFor(cfg, entity, psm, ids))
      && out.errors <= |ids|
      && out.exitCode == (if out.errors == 0 then 0 else 2)
      && (ids == [] ==> out.summaryRows == [] && out.missingRows == [] && out.exitCode == 0)
      && (out.exitCode == 0 <==> forall i :: 0 <= i < |ids| ==>
            TenantInDest(cfg, psm, ids[i]) && SourceUserKeys(cfg, entity, ids[i]) == DestUserKeys(cfg, psm, ids[i]))
  {
    var cfg := ConfigOf(args);
    var candidates := TenantIdsOf(Find(entity, Queries.SourceTenantQuery(cfg.environment, cfg.clusterIndex)));
    var ids := Dedup(candidates);
    NoErrorsIffAllReconciled(cfg, entity, psm, ids);
    if ids == [] {
      return Outcome([], [], 0, 0);
    }
    var summary, missing, errors := Collect(cfg, entity, psm, ids);
    out := Outcome(summary, missing, errors, if errors != 0 then 2 else 0);
  }

  /**
   * A summary row describes its tenant: the flags are YES exactly when the
   * tenant was found and when the counts agree, and the two counts read back
   * as the sizes of the source and destination key sets.
   */
  lemma SummaryDescribesTenant(cfg: Config, entity: seq<Record>, psm: seq<Record>, t: string)
    ensures var row := SummaryOf(cfg, Reconciled(cfg, entity, psm, t));
      && row.environment == cfg.environment && row.clusterIndex == cfg.clusterIndex && row.tenantId == t
      && (row.tenantInPsm == "YES" || row.tenantInPsm == "NO")
      && (row.tenantInPsm == "YES" <==> TenantInDest(cfg, psm, t))
      && (row.usersMatch == "YES" || row.usersMatch == "NO")
      && (row.usersMatch == "YES" <==> |SourceUserKeys(cfg, entity, t)| == |DestUserKeys(cfg, psm, t)|)
      && AllDigits(row.entityUsers) && DecimalValue(row.entityUsers) == |SourceUserKeys(cfg, entity, t)|
      && AllDigits(row.psmUsers) && DecimalValue(row.psmUsers) == |DestUserKeys(cfg, psm, t)|
  {
    DecimalRoundTrip(|SourceUserKeys(cfg, entity, t)|);
    DecimalRoundTrip(|DestUserKeys(cfg, psm, t)|);
  }

  /** The rows of a run are the rows of its first tenants followed by those of the rest. */
  lemma {:induction false} MissingRowsConcat(cfg: Config, a: seq<TenantResult>, b: seq<TenantResult>)
    ensures MissingRows(cfg, a + b) == MissingRows(cfg, a) + MissingRows(cfg, b)
    decreases |b|
  {
    if b == [] {
      assert a + b == a;
    } else {
      var init := b[..|b| - 1];
      assert (a + b)[..|a + b| - 1] == a + init;
      MissingRowsConcat(cfg, a, init);
    }
  }

  /** A row is in the missing table exactly when it names a key in some tenant's missing list. */
  lemma {:induction false} MissingRowsMembers(cfg: Config, rs: seq<TenantResult>)
    ensures forall m :: m in MissingRows(cfg, rs) <==>
      exists i, k :: 0 <= i < |rs| && k in rs[i].missingInDest && m == MissingRowOf(cfg, rs[i].tenantId, k)
    decreases |rs|
  {
    if rs != [] {
      var init := rs[..|rs| - 1];
      var last := rs[|rs| - 1];
      MissingRowsMembers(cfg, init);
      forall m | m in MissingRows(cfg, rs)
        ensures exists i, k :: 0 <= i < |rs| && k in rs[i].missingInDest && m == MissingRowOf(cfg, rs[i].tenantId, k)
      {
        if m in MissingRows(cfg, init) {
          var i, k :| 0 <= i < |init| && k in init[i].missingInDest && m == MissingRowOf(cfg, init[i].tenantId, k);
          assert init[i] == rs[i];
        } else {
          var j :| 0 <= j < |last.missingInDest| && MissingRowsOf(cfg, last)[j] == m;
          assert last.missingInDest[j] in last.missingInDest;
        }
      }
      forall i, k | 0 <= i < |rs| && k in rs[i].missingInDest
        ensures MissingRowOf(cfg, rs[i].tenantId, k) in MissingRows(cfg, rs)
      {
        if i < |init| {
          assert init[i] == rs[i];
        } else {
          var j :| 0 <= j < |last.missingInDest| && last.missingInDest[j] == k;
          assert MissingRowsOf(cfg, last)[j] == MissingRowOf(cfg, rs[i].tenantId, k);
        }
      }
    }
  }

  /**
   * Over a run, the missing-users table lists exactly the source keys of a
   * selected tenant that its destination users lack.
   */
  lemma MissingRowsAreMissingUsers(cfg: Config, entity: seq<Record>, psm: seq<Record>, ids: seq<string>)
    ensures forall m :: m in MissingRows(cfg, ResultsFor(cfg, entity, psm, ids)) <==>
      && m.environment == cfg.environment && m.clusterIndex == cfg.clusterIndex
      && (exists i :: 0 <= i < |ids| && m.tenantId == ids[i]
            && UserKey(m.missingUserKeyType, m.missingUserKeyValue) in SourceUserKeys(cfg, entity, ids[i])
            && UserKey(m.missingUserKeyType, m.missingUserKeyValue) !in DestUserKeys(cfg, psm, ids[i]))
  {
    var rs := ResultsFor(cfg, entity, psm, ids);
    MissingRowsMembers(cfg, rs);
    forall m | m in MissingRows(cfg, rs)
      ensures exists i :: 0 <= i < |ids| && m.tenantId == ids[i]
                && UserKey(m.missingUserKeyType, m.missingUserKeyValue) in SourceUserKeys(cfg, entity, ids[i])
                && UserKey(m.missingUserKeyType, m.missingUserKeyValue) !in DestUserKeys(cfg, psm, ids[i])
    {
      var i, k :| 0 <= i < |rs| && k in rs[i].missingInDest && m == MissingRowOf(cfg, rs[i].tenantId, k);
      MissingIsSortedDifference(cfg, entity, psm, ids[i]);
      assert UserKey(m.missingUserKeyType, m.missingUserKeyValue) == k;
    }
    forall m: MissingRow, i | 0 <= i < |ids| && m.environment == cfg.environment && m.clusterIndex == cfg.clusterIndex
        && m.tenantId == ids[i]
        && UserKey(m.missingUserKeyType, m.missingUserKeyValue) in SourceUserKeys(cfg, entity, ids[i])
        && UserKey(m.missingUserKeyType, m.missingUserKeyValue) !in DestUserKeys(cfg, psm, ids[i])
      ensures m in MissingRows(cfg, rs)
    {
      var k := UserKey(m.missingUserKeyType, m.missingUserKeyValue);
      MissingIsSortedDifference(cfg, entity, psm, ids[i]);
      assert k in rs[i].missingInDest && m == MissingRowOf(cfg, rs[i].tenantId, k);
    }
  }

  /** Within one tenant the missing rows come in ascending key order, one per missing key. */
  lemma MissingRowsOfTenantAscending(cfg: Config, entity: seq<Record>, psm: seq<Record>, t: string)
    ensures var rows := MissingRowsOf(cfg, Reconciled(cfg, entity, psm, t));
      && |rows| == |SourceUserKeys(cfg, entity, t) - DestUserKeys(cfg, psm, t)|
      && forall a, b :: 0 <= a < b < |rows| ==>
           KeyLess(UserKey(rows[a].missingUserKeyType, rows[a].missingUserKeyValue),
                   UserKey(rows[b].missingUserKeyType, rows[b].missingUserKeyValue))
  {
    MissingIsSortedDifference(cfg, entity, psm, t);
  }
}
