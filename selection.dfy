/**
 * Choosing the tenants to verify: provisioned source tenants of the requested
 * environment and cluster with a non-empty id, each id once, in the order of
 * its first occurrence.
 */
module Selection {
  import opened Wrappers
  import opened Store
  import opened Queries

  /** The non-empty `tenant` fields of the found source tenant documents, in order. */
  function TenantIdsOf(found: seq<Record>): (ids: seq<string>)
    ensures |ids| <= |found|
    ensures forall t :: t in ids <==> t != "" && exists d :: d in found && Get(d, "tenant") == Some(t)
  {
    if found == [] then []
    else
      var head := if Truthy(Get(found[0], "tenant")) then [Get(found[0], "tenant").value] else [];
      assert forall d :: d in found <==> d == found[0] || d in found[1..];
      head + TenantIdsOf(found[1..])
  }

  /** The ids of a single document: its `tenant` when that is non-empty, else none. */
  lemma TenantIdsOfOne(d: Record)
    ensures Truthy(Get(d, "tenant")) ==> TenantIdsOf([d]) == [Get(d, "tenant").value]
    ensures !Truthy(Get(d, "tenant")) ==> TenantIdsOf([d]) == []
  {
    assert [d][1..] == [];
  }

  /**
   * Extraction works document by document: the ids of two runs of documents
   * are the ids of the first followed by those of the second, so every id
   * stands where its document stands in the found list.
   */
  lemma {:induction false} TenantIdsOfAppend(a: seq<Record>, b: seq<Record>)
    ensures TenantIdsOf(a + b) == TenantIdsOf(a) + TenantIdsOf(b)
    decreases |a|
  {
    if a == [] {
      assert a + b == b;
    } else {
      assert (a + b)[0] == a[0];
      assert (a + b)[1..] == a[1..] + b;
      TenantIdsOfAppend(a[1..], b);
    }
  }

  predicate NoDuplicates(s: seq<string>)
  {
    forall i, j :: 0 <= i < j < |s| ==> s[i] != s[j]
  }

  /** Order-preserving de-duplication: each element once, where it first occurs. */
  function Unique(xs: seq<string>): (r: seq<string>)
    ensures NoDuplicates(r)
    ensures forall x :: x in r <==> x in xs
  {
    if xs == [] then []
    else
      var init := xs[..|xs| - 1];
      var last := xs[|xs| - 1];
      assert xs == init + [last];
      var p := Unique(init);
      if last in p then p else p + [last]
  }

  /** Position of the first occurrence of `x` in `xs`. */
  function FirstIndex(xs: seq<string>, x: string): (i: nat)
    requires x in xs
    ensures i < |xs| && xs[i] == x && x !in xs[..i]
  {
    if xs[0] == x then 0
    else
      var j := FirstIndex(xs[1..], x);
      assert xs[..j + 1] == [xs[0]] + xs[1..][..j];
      1 + j
  }

  /** The first occurrence is the only index that holds `x` with no `x` before it. */
  lemma FirstIndexIsUnique(xs: seq<string>, x: string, i: nat)
    requires i < |xs| && xs[i] == x && x !in xs[..i]
    ensures FirstIndex(xs, x) == i
  {
  }

  lemma FirstIndexOfPrefix(xs: seq<string>, ys: seq<string>, x: string)
    requires x in xs
    ensures FirstIndex(xs + ys, x) == FirstIndex(xs, x)
  {
    var i := FirstIndex(xs, x);
    assert (xs + ys)[..i] == xs[..i];
    FirstIndexIsUnique(xs + ys, x, i);
  }

  /** Deduplication keeps elements in the order of their first occurrence. */
  lemma {:induction false} UniqueKeepsFirstOccurrenceOrder(xs: seq<string>)
    ensures forall a, b :: 0 <= a < b < |Unique(xs)| ==>
      FirstIndex(xs, Unique(xs)[a]) < FirstIndex(xs, Unique(xs)[b])
    decreases |xs|
  {
    if xs != [] {
      var init := xs[..|xs| - 1];
      var last := xs[|xs| - 1];
      assert xs == init + [last];
      var p := Unique(init);
      var u := Unique(xs);
      UniqueKeepsFirstOccurrenceOrder(init);
      forall y | y in p
        ensures FirstIndex(xs, y) == FirstIndex(init, y) < |init|
      {
        FirstIndexOfPrefix(init, [last], y);
      }
      if last !in p {
        assert xs[..|init|] == init;
        FirstIndexIsUnique(xs, last, |init|);
        assert u == p + [last];
        forall a, b | 0 <= a < b < |u|
          ensures FirstIndex(xs, u[a]) < FirstIndex(xs, u[b])
        {
          assert u[a] == p[a];
          if b < |p| {
            assert u[b] == p[b];
          }
        }
      }
    }
  }

  /** De-duplicates the candidate ids in one pass, keeping the set of ids already seen. */
  method Dedup(xs: seq<string>) returns (ys: seq<string>)
    ensures ys == Unique(xs)
  {
    var seen: set<string> := {};
    ys := [];
    for i := 0 to |xs|
      invariant ys == Unique(xs[..i])
      invariant forall y :: y in seen <==> y in ys
    {
      assert xs[..i + 1][..i] == xs[..i];
      if xs[i] !in seen {
        ys := ys + [xs[i]];
        seen := seen + {xs[i]};
      }
    }
    assert xs[..|xs|] == xs;
  }

  /** The candidate ids in collection order, before deduplication. */
  function CandidateIds(env: string, cluster: string, entity: seq<Record>): seq<string>
  {
    TenantIdsOf(Find(entity, SourceTenantQuery(env, cluster)))
  }

  /** The tenant ids the run verifies. */
  function SelectedTenants(env: string, cluster: string, entity: seq<Record>): seq<string>
  {
    Unique(CandidateIds(env, cluster, entity))
  }

  /**
   * The selected ids are exactly the non-empty tenant ids of provisioned
   * source tenants of the scope, without repetition, in first-occurrence order.
   */
  lemma SelectedTenantsExactly(env: string, cluster: string, entity: seq<Record>)
    ensures NoDuplicates(SelectedTenants(env, cluster, entity))
    ensures forall t :: t in SelectedTenants(env, cluster, entity) <==>
      t != "" && exists d :: d in entity && IsProvisionedTenant(d, env, cluster) && Get(d, "tenant") == Some(t)
    ensures var c := CandidateIds(env, cluster, entity); var ids := Unique(c);
      forall a, b :: 0 <= a < b < |ids| ==> FirstIndex(c, ids[a]) < FirstIndex(c, ids[b])
  {
    UniqueKeepsFirstOccurrenceOrder(CandidateIds(env, cluster, entity));
  }
}
