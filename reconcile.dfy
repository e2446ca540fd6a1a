/**
 * Reconciliation of one tenant: is it present in the destination, and how do
 * the key sets of its source and destination users compare.
 */
module Reconcile {
  import opened Wrappers
  import opened Store
  import opened Keys
  import opened Queries

  /** The run's parameters: scope, and whether source users must carry the cluster too. */
  datatype Config = Config(environment: string, clusterIndex: string, requireUserCluster: bool)

  /** What the run learns about one tenant. */
  datatype TenantResult = TenantResult(
    tenantId: string,
    tenantFound: bool,
    sourceUserCount: nat,
    destUserCount: nat,
    usersMatch: bool,
    missingInDest: seq<UserKey>)

  /** The destination has a tenant document for `t` in this environment and cluster. */
  predicate TenantInDest(cfg: Config, psm: seq<Record>, t: string)
  {
    FindOne(psm, DestTenantQuery(cfg.environment, cfg.clusterIndex, t)).Some?
  }

  function SourceUsers(cfg: Config, entity: seq<Record>, t: string): seq<Record>
  {
    Find(entity, SourceUserQuery(cfg.environment, cfg.clusterIndex, t, cfg.requireUserCluster))
  }

  function DestUsers(cfg: Config, psm: seq<Record>, t: string): seq<Record>
  {
    Find(psm, DestUserQuery(cfg.environment, t))
  }

  function SourceUserKeys(cfg: Config, entity: seq<Record>, t: string): set<UserKey>
  {
    KeySet(Source, SourceUsers(cfg, entity, t))
  }

  function DestUserKeys(cfg: Config, psm: seq<Record>, t: string): set<UserKey>
  {
    KeySet(Dest, DestUsers(cfg, psm, t))
  }

  /** The result the loop body computes for tenant `t`. */
  function Reconciled(cfg: Config, entity: seq<Record>, psm: seq<Record>, t: string): TenantResult
  {
    var src := SourceUserKeys(cfg, entity, t);
    var dst := DestUserKeys(cfg, psm, t);
    TenantResult(t, TenantInDest(cfg, psm, t), |src|, |dst|, |src| == |dst|, SortedKeys(src - dst))
  }

  /** A tenant is in error when it is absent, its counts differ or some source key is missing. */
  predicate HasError(r: TenantResult)
  {
    !r.tenantFound || !r.usersMatch || r.missingInDest != []
  }

  /** The loop body for one tenant: tenant lookup, both key sets, counts and the sorted difference. */
  method ReconcileTenant(cfg: Config, entity: seq<Record>, psm: seq<Record>, t: string) returns (r: TenantResult)
    ensures r == Reconciled(cfg, entity, psm, t)
  {
    var tenantDoc := FindOne(psm, DestTenantQuery(cfg.environment, cfg.clusterIndex, t));
    var tenantFound := tenantDoc.Some?;
    var sourceUsers := Find(entity, SourceUserQuery(cfg.environment, cfg.clusterIndex, t, cfg.requireUserCluster));
    var sourceKeys := CollectKeys(Source, sourceUsers);
    var destUsers := Find(psm, DestUserQuery(cfg.environment, t));
    var destKeys := CollectKeys(Dest, destUsers);
    var sourceCount := |sourceKeys|;
    var destCount := |destKeys|;
    var missing := SortedKeys(sourceKeys - destKeys);
    r := TenantResult(t, tenantFound, sourceCount, destCount, sourceCount == destCount, missing);
  }

  /**
   * The tenant counts as found exactly when a destination tenant document of
   * the scope carries its id as `tenant_id` or as `ftra_tenant_id`.
   */
  lemma TenantFoundIff(cfg: Config, entity: seq<Record>, psm: seq<Record>, t: string)
    ensures Reconciled(cfg, entity, psm, t).tenantFound <==>
      exists d :: d in psm
        && Get(d, "entity_type") == Some("tenant")
        && Get(d, "environment") == Some(cfg.environment)
        && Get(d, "cluster_index") == Some(cfg.clusterIndex)
        && (Get(d, "tenant_id") == Some(t) || Get(d, "ftra_tenant_id") == Some(t))
  {
  }

  lemma DifferenceBound(a: set<UserKey>, b: set<UserKey>)
    ensures |a - b| <= |a|
  {
    assert a == (a - b) + (a * b);
    assert (a - b) * (a * b) == {};
  }

  /**
   * The missing list is the source key set minus the destination key set, in
   * ascending order and without repetition, so it is never longer than the
   * source user count.
   */
  lemma MissingIsSortedDifference(cfg: Config, entity: seq<Record>, psm: seq<Record>, t: string)
    ensures var r := Reconciled(cfg, entity, psm, t);
      && StrictlySorted(r.missingInDest)
      && (forall k :: k in r.missingInDest <==>
            k in SourceUserKeys(cfg, entity, t) && k !in DestUserKeys(cfg, psm, t))
      && r.sourceUserCount == |SourceUserKeys(cfg, entity, t)|
      && r.destUserCount == |DestUserKeys(cfg, psm, t)|
      && |r.missingInDest| <= r.sourceUserCount
  {
    DifferenceBound(SourceUserKeys(cfg, entity, t), DestUserKeys(cfg, psm, t));
  }

  lemma SubsetOfSameSize(a: set<UserKey>, b: set<UserKey>)
    requires a <= b && |a| == |b|
    ensures a == b
  {
    assert b == a + (b - a);
    assert a * (b - a) == {};
    assert |b - a| == 0;
  }

  /**
   * Although `users_match` compares only counts, a tenant is error-free
   * exactly when it is found and both sides have the same key set.
   */
  lemma NoErrorIffSameKeys(cfg: Config, entity: seq<Record>, psm: seq<Record>, t: string)
    ensures !HasError(Reconciled(cfg, entity, psm, t)) <==>
      TenantInDest(cfg, psm, t) && SourceUserKeys(cfg, entity, t) == DestUserKeys(cfg, psm, t)
  {
    var src := SourceUserKeys(cfg, entity, t);
    var dst := DestUserKeys(cfg, psm, t);
    var r := Reconciled(cfg, entity, psm, t);
    if !HasError(r) {
      assert src - dst == {};
      SubsetOfSameSize(src, dst);
    }
  }

  /**
   * With no user documents on either side the counts match and nothing is
   * missing; the tenant is then in error exactly when it is not found.
   */
  lemma NoUsersOnEitherSide(cfg: Config, entity: seq<Record>, psm: seq<Record>, t: string)
    requires forall d :: d in entity ==> !Matches(d, SourceUserQuery(cfg.environment, cfg.clusterIndex, t, cfg.requireUserCluster))
    requires forall d :: d in psm ==> !Matches(d, DestUserQuery(cfg.environment, t))
    ensures var r := Reconciled(cfg, entity, psm, t);
      && r.sourceUserCount == 0 && r.destUserCount == 0
      && r.usersMatch && r.missingInDest == []
      && (HasError(r) <==> !r.tenantFound)
  {
  }

  /** Requiring the user's own cluster can only drop source users, never add any. */
  lemma RequireClusterOnlyShrinks(env: string, cluster: string, entity: seq<Record>, t: string)
    ensures SourceUserKeys(Config(env, cluster, true), entity, t) <= SourceUserKeys(Config(env, cluster, false), entity, t)
    ensures |SourceUserKeys(Config(env, cluster, true), entity, t)| <= |SourceUserKeys(Config(env, cluster, false), entity, t)|
  {
    var strict := SourceUserKeys(Config(env, cluster, true), entity, t);
    var loose := SourceUserKeys(Config(env, cluster, false), entity, t);
    forall k | k in strict ensures k in loose {
      var d :| d in SourceUsers(Config(env, cluster, true), entity, t) && SourceKey(d) == k;
      assert d in SourceUsers(Config(env, cluster, false), entity, t);
    }
    assert loose == strict + (loose - strict);
  }

  /**
   * A source user that falls back to its email is reported missing, whatever
   * the destination holds, and so puts its tenant in error.
   */
  lemma EmailKeyedSourceUserIsMissing(cfg: Config, entity: seq<Record>, psm: seq<Record>, t: string, u: Record)
    requires u in SourceUsers(cfg, entity, t)
    requires SourceKey(u).kind == SourceEmailKind
    ensures SourceKey(u) in Reconciled(cfg, entity, psm, t).missingInDest
    ensures HasError(Reconciled(cfg, entity, psm, t))
  {
    var k := SourceKey(u);
    if k in DestUserKeys(cfg, psm, t) {
      var d :| d in DestUsers(cfg, psm, t) && DestKey(d) == k;
      SourceAndDestKeysMeetOnlyOnIds(u, d);
    }
  }

  /** The destination user filter sees the same documents whatever their `cluster_index` holds. */
  lemma DestUsersIgnoreCluster(cfg: Config, t: string, d: Record, v: Option<string>)
    ensures Matches(d["cluster_index" := v], DestUserQuery(cfg.environment, t)) == Matches(d, DestUserQuery(cfg.environment, t))
  {
    MatchesIgnoresUnmentioned(d, DestUserQuery(cfg.environment, t), "cluster_index", v);
  }

  /**
   * `users_match` is a count comparison only: key sets of equal size but
   * different members give "YES" while a missing user is still reported.
   */
  lemma SameCountDifferentUsers(cfg: Config, entity: seq<Record>, psm: seq<Record>, t: string)
    requires |SourceUserKeys(cfg, entity, t)| == |DestUserKeys(cfg, psm, t)|
    requires SourceUserKeys(cfg, entity, t) != DestUserKeys(cfg, psm, t)
    ensures Reconciled(cfg, entity, psm, t).usersMatch
    ensures Reconciled(cfg, entity, psm, t).missingInDest != []
    ensures HasError(Reconciled(cfg, entity, psm, t))
  {
    var src := SourceUserKeys(cfg, entity, t);
    var dst := DestUserKeys(cfg, psm, t);
    if src - dst == {} {
      SubsetOfSameSize(src, dst);
    }
  }
}
