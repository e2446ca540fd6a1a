/**
 * The four filters the script sends to the store, written as data, each with
 * the exact set of documents it matches.
 */
module Queries {
  import opened Wrappers
  import opened Store

  /** A source document that is a provisioned tenant of the environment and cluster. */
  predicate IsProvisionedTenant(d: Record, env: string, cluster: string)
  {
    && Get(d, "entity") == Some("tenant")
    && Get(d, "environment") == Some(env)
    && Get(d, "cluster_index") == Some(cluster)
    && Get(d, "status") == Some("provisioned")
  }

  /** Source tenants to verify: `record.entity/environment/cluster_index/status`. */
  function SourceTenantQuery(env: string, cluster: string): (q: Query)
    ensures forall d :: Matches(d, q) <==> IsProvisionedTenant(d, env, cluster)
  {
    MatchesFour(Eq("entity", "tenant"), Eq("environment", env), Eq("cluster_index", cluster), Eq("status", "provisioned"));
    [Eq("entity", "tenant"), Eq("environment", env), Eq("cluster_index", cluster), Eq("status", "provisioned")]
  }

  /** The destination tenant, matched on `tenant_id` or on `ftra_tenant_id`. */
  function DestTenantQuery(env: string, cluster: string, tenant: string): (q: Query)
    ensures forall d :: Matches(d, q) <==>
      && Get(d, "entity_type") == Some("tenant")
      && Get(d, "environment") == Some(env)
      && Get(d, "cluster_index") == Some(cluster)
      && (Get(d, "tenant_id") == Some(tenant) || Get(d, "ftra_tenant_id") == Some(tenant))
  {
    var byId := AnyOf(Eq("tenant_id", tenant), Eq("ftra_tenant_id", tenant));
    assert forall d :: Holds(d, byId) <==> Get(d, "tenant_id") == Some(tenant) || Get(d, "ftra_tenant_id") == Some(tenant);
    MatchesFour(Eq("entity_type", "tenant"), Eq("environment", env), Eq("cluster_index", cluster), byId);
    [Eq("entity_type", "tenant"), Eq("environment", env), Eq("cluster_index", cluster), byId]
  }

  /** Source users of a tenant; the user's own cluster is checked only on request. */
  function SourceUserQuery(env: string, cluster: string, tenant: string, requireCluster: bool): (q: Query)
    ensures forall d :: Matches(d, q) <==>
      && Get(d, "entity") == Some("user")
      && Get(d, "environment") == Some(env)
      && Get(d, "tenant") == Some(tenant)
      && (requireCluster ==> Get(d, "cluster_index") == Some(cluster))
  {
    MatchesThree(Eq("entity", "user"), Eq("environment", env), Eq("tenant", tenant));
    MatchesFour(Eq("entity", "user"), Eq("environment", env), Eq("tenant", tenant), Eq("cluster_index", cluster));
    var base := [Eq("entity", "user"), Eq("environment", env), Eq("tenant", tenant)];
    if requireCluster then
      assert base + [Eq("cluster_index", cluster)]
          == [Eq("entity", "user"), Eq("environment", env), Eq("tenant", tenant), Eq("cluster_index", cluster)];
      base + [Eq("cluster_index", cluster)]
    else base
  }

  /** Destination users of a tenant. There is no cluster condition on this side. */
  function DestUserQuery(env: string, tenant: string): (q: Query)
    ensures Ignores(q, "cluster_index")
    ensures forall d :: Matches(d, q) <==>
      && Get(d, "entity_type") == Some("user")
      && Get(d, "environment") == Some(env)
      && Get(d, "tenant_id") == Some(tenant)
  {
    MatchesThree(Eq("entity_type", "user"), Eq("environment", env), Eq("tenant_id", tenant));
    [Eq("entity_type", "user"), Eq("environment", env), Eq("tenant_id", tenant)]
  }
}
