/**
 * The document store, reduced to what the reconciliation needs: documents are
 * maps from field name to an optional string, filters are conjunctions of
 * equalities (or of an OR of two equalities), `find` is an order-preserving
 * filter and `find_one` the first match.
 */
module Store {
  import opened Wrappers

  /** A document. A field that is missing and a field that holds null both read as None. */
  type Record = map<string, Option<string>>

  /** The value of a field, or None when the document lacks it. */
  function Get(d: Record, field: string): Option<string>
  {
    if field in d then d[field] else None
  }

  /** Python truthiness of a field value: present, not null and not the empty string. */
  predicate Truthy(v: Option<string>)
  {
    v.Some? && v.value != ""
  }

  /** `str(v)` of a field value that is a string or None. */
  function Render(v: Option<string>): string
  {
    match v
    case None => "None"
    case Some(s) => s
  }

  /** Python's `a or b`: the first operand if it is truthy, else the second. */
  function PyOr(a: Option<string>, b: Option<string>): (r: Option<string>)
    ensures Truthy(r) <==> Truthy(a) || Truthy(b)
    ensures Truthy(a) ==> r == a
    ensures !Truthy(a) ==> r == b
  {
    if Truthy(a) then a else b
  }

  /** One condition of a filter: `{field: value}` or `{"$or": [left, right]}`. */
  datatype Cond = Eq(field: string, value: string) | AnyOf(left: Cond, right: Cond)

  /** A filter document: all of its conditions must hold. */
  type Query = seq<Cond>

  predicate Holds(d: Record, c: Cond)
  {
    match c
    case Eq(f, v) => Get(d, f) == Some(v)
    case AnyOf(a, b) => Holds(d, a) || Holds(d, b)
  }

  predicate Matches(d: Record, q: Query)
  {
    forall c :: c in q ==> Holds(d, c)
  }

  /** A filter of three conditions matches when each of them holds. */
  lemma MatchesThree(a: Cond, b: Cond, c: Cond)
    ensures forall d :: Matches(d, [a, b, c]) <==> Holds(d, a) && Holds(d, b) && Holds(d, c)
  {
    forall d | Matches(d, [a, b, c])
      ensures Holds(d, a) && Holds(d, b) && Holds(d, c)
    {
      assert a in [a, b, c] && b in [a, b, c] && c in [a, b, c];
    }
  }

  /** A filter of four conditions matches when each of them holds. */
  lemma MatchesFour(a: Cond, b: Cond, c: Cond, e: Cond)
    ensures forall d :: Matches(d, [a, b, c, e]) <==> Holds(d, a) && Holds(d, b) && Holds(d, c) && Holds(d, e)
  {
    forall d | Matches(d, [a, b, c, e])
      ensures Holds(d, a) && Holds(d, b) && Holds(d, c) && Holds(d, e)
    {
      assert a in [a, b, c, e] && b in [a, b, c, e] && c in [a, b, c, e] && e in [a, b, c, e];
    }
  }

  /** Whether a condition looks at the field at all. */
  predicate Mentions(c: Cond, f: string)
  {
    match c
    case Eq(g, _) => g == f
    case AnyOf(a, b) => Mentions(a, f) || Mentions(b, f)
  }

  predicate Ignores(q: Query, f: string)
  {
    forall c :: c in q ==> !Mentions(c, f)
  }

  /** `collection.find(q)`: the matching documents, in collection order. */
  function Find(docs: seq<Record>, q: Query): (r: seq<Record>)
    ensures |r| <= |docs|
    ensures forall d :: d in r <==> d in docs && Matches(d, q)
  {
    if docs == [] then []
    else (if Matches(docs[0], q) then [docs[0]] else []) + Find(docs[1..], q)
  }

  /** A single document is found exactly when it matches. */
  lemma FindOneDocument(d: Record, q: Query)
    ensures Matches(d, q) ==> Find([d], q) == [d]
    ensures !Matches(d, q) ==> Find([d], q) == []
  {
    assert [d][1..] == [];
  }

  /**
   * Finding works document by document: the result over two runs of the
   * collection is the result over the first followed by that over the second,
   * so the found documents keep the collection's order.
   */
  lemma {:induction false} FindAppend(a: seq<Record>, b: seq<Record>, q: Query)
    ensures Find(a + b, q) == Find(a, q) + Find(b, q)
    decreases |a|
  {
    if a == [] {
      assert a + b == b;
    } else {
      assert (a + b)[0] == a[0];
      assert (a + b)[1..] == a[1..] + b;
      FindAppend(a[1..], b, q);
    }
  }

  /** `collection.find_one(q)`: some matching document, or None when there is none. */
  function FindOne(docs: seq<Record>, q: Query): (r: Option<Record>)
    ensures r.Some? <==> exists d :: d in docs && Matches(d, q)
    ensures r.Some? ==> r.value in docs && Matches(r.value, q)
  {
    if docs == [] then None
    else if Matches(docs[0], q) then Some(docs[0])
    else FindOne(docs[1..], q)
  }

  /** A condition that does not mention a field cannot see a change to it. */
  lemma {:induction false} HoldsIgnoresUnmentioned(d: Record, c: Cond, f: string, v: Option<string>)
    requires !Mentions(c, f)
    ensures Holds(d[f := v], c) == Holds(d, c)
  {
    match c
    case Eq(g, w) =>
      assert Get(d[f := v], g) == Get(d, g);
    case AnyOf(a, b) =>
      HoldsIgnoresUnmentioned(d, a, f, v);
      HoldsIgnoresUnmentioned(d, b, f, v);
  }

  /** A filter that never mentions a field matches the same documents whatever that field holds. */
  lemma MatchesIgnoresUnmentioned(d: Record, q: Query, f: string, v: Option<string>)
    requires Ignores(q, f)
    ensures Matches(d[f := v], q) == Matches(d, q)
  {
    forall c | c in q
      ensures Holds(d[f := v], c) == Holds(d, c)
    {
      HoldsIgnoresUnmentioned(d, c, f, v);
    }
  }
}
