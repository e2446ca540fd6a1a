/**
 * Identity keys of users. Each side of the migration has its own rule for
 * turning a user document into a `(kind, value)` pair, and the two rules use
 * different tags for the email fallback.
 */
module Keys {
  import opened Wrappers
  import opened Store
  import Lex

  /** The `(kind, value)` tuple the script puts into its key sets. */
  datatype UserKey = UserKey(kind: string, value: string)

  /** Which collection a user document comes from. */
  datatype Side = Source | Dest

  const IdKind := "id"
  /** Tag of the email fallback for users of the source collection. */
  const SourceEmailKind := "useremail"
  /** Tag of the email fallback for users of the destination collection. */
  const DestEmailKind := "user_email"

  /**
   * Key of a source user (the document's `record`): `user`, else `username`,
   * as an id, else the rendered `useremail`.
   */
  function SourceKey(rec: Record): (k: UserKey)
    ensures Truthy(Get(rec, "user")) ==> k == UserKey(IdKind, Get(rec, "user").value)
    ensures !Truthy(Get(rec, "user")) && Truthy(Get(rec, "username")) ==>
              k == UserKey(IdKind, Get(rec, "username").value)
    ensures !Truthy(Get(rec, "user")) && !Truthy(Get(rec, "username")) ==>
              k == UserKey(SourceEmailKind, Render(Get(rec, "useremail")))
  {
    var uid := PyOr(Get(rec, "user"), Get(rec, "username"));
    var uemail := Get(rec, "useremail");
    if Truthy(uid) then UserKey(IdKind, Render(uid)) else UserKey(SourceEmailKind, Render(uemail))
  }

  /** Key of a destination user: `user_id` as an id, else the rendered `user_email`. */
  function DestKey(d: Record): (k: UserKey)
    ensures Truthy(Get(d, "user_id")) ==> k == UserKey(IdKind, Get(d, "user_id").value)
    ensures !Truthy(Get(d, "user_id")) ==> k == UserKey(DestEmailKind, Render(Get(d, "user_email")))
  {
    var uid := Get(d, "user_id");
    var uemail := Get(d, "user_email");
    if Truthy(uid) then UserKey(IdKind, Render(uid)) else UserKey(DestEmailKind, Render(uemail))
  }

  function KeyOf(side: Side, d: Record): UserKey
  {
    match side
    case Source => SourceKey(d)
    case Dest => DestKey(d)
  }

  /** An id key always carries a non-empty value. */
  lemma IdKeysAreNonEmpty(side: Side, d: Record)
    ensures KeyOf(side, d).kind == IdKind ==> KeyOf(side, d).value != ""
  {
  }

  /**
   * A source user keyed by email never has the key of any destination user:
   * the two sides tag the fallback differently. Only id keys can match, and
   * then on the id itself.
   */
  lemma SourceAndDestKeysMeetOnlyOnIds(s: Record, d: Record)
    ensures SourceKey(s).kind == SourceEmailKind ==> SourceKey(s) != DestKey(d)
    ensures SourceKey(s) == DestKey(d) ==> SourceKey(s).kind == IdKind
  {
  }

  /** The set of keys of a sequence of user documents, as the loop over them builds it. */
  function KeySet(side: Side, docs: seq<Record>): (keys: set<UserKey>)
    ensures forall k :: k in keys <==> exists d :: d in docs && KeyOf(side, d) == k
    ensures |keys| <= |docs|
  {
    if docs == [] then {}
    else
      var init := docs[..|docs| - 1];
      assert docs == init + [docs[|docs| - 1]];
      KeySet(side, init) + {KeyOf(side, docs[|docs| - 1])}
  }

  /** The set of keys of a sequence of user documents under one side's key rule. */
  method CollectKeys(side: Side, docs: seq<Record>) returns (keys: set<UserKey>)
    ensures keys == KeySet(side, docs)
  {
    keys := {};
    for i := 0 to |docs|
      invariant keys == KeySet(side, docs[..i])
    {
      assert docs[..i + 1][..i] == docs[..i];
      keys := keys + {KeyOf(side, docs[i])};
    }
    assert docs[..|docs|] == docs;
  }

  /** Python's `<` on `(kind, value)` tuples. */
  predicate KeyLess(x: UserKey, y: UserKey)
  {
    Lex.Less(x.kind, y.kind) || (x.kind == y.kind && Lex.Less(x.value, y.value))
  }

  lemma KeyLessIrreflexive(x: UserKey)
    ensures !KeyLess(x, x)
  {
    Lex.LessIrreflexive(x.kind);
    Lex.LessIrreflexive(x.value);
  }

  lemma KeyLessTransitive(x: UserKey, y: UserKey, z: UserKey)
    requires KeyLess(x, y) && KeyLess(y, z)
    ensures KeyLess(x, z)
  {
    if Lex.Less(x.kind, y.kind) && Lex.Less(y.kind, z.kind) {
      Lex.LessTransitive(x.kind, y.kind, z.kind);
    } else if x.kind == y.kind && y.kind == z.kind {
      Lex.LessTransitive(x.value, y.value, z.value);
    }
  }

  lemma KeyLessTotal(x: UserKey, y: UserKey)
    requires x != y
    ensures KeyLess(x, y) || KeyLess(y, x)
  {
    if x.kind != y.kind {
      Lex.LessTotal(x.kind, y.kind);
    } else {
      Lex.LessTotal(x.value, y.value);
    }
  }

  predicate StrictlySorted(s: seq<UserKey>)
  {
    forall i, j :: 0 <= i < j < |s| ==> KeyLess(s[i], s[j])
  }

  predicate IsLeast(m: UserKey, s: set<UserKey>)
  {
    m in s && forall y :: y in s && y != m ==> KeyLess(m, y)
  }

  lemma {:induction false} LeastExists(s: set<UserKey>)
    requires s != {}
    ensures exists m :: IsLeast(m, s)
    decreases |s|
  {
    var x :| x in s;
    if s == {x} {
      assert IsLeast(x, s);
    } else {
      var rest := s - {x};
      LeastExists(rest);
      var m :| IsLeast(m, rest);
      if KeyLess(x, m) {
        forall y | y in s && y != x
          ensures KeyLess(x, y)
        {
          if y != m {
            KeyLessTransitive(x, m, y);
          }
        }
        assert IsLeast(x, s);
      } else {
        KeyLessTotal(x, m);
        assert IsLeast(m, s);
      }
    }
  }

  lemma LeastUnique(s: set<UserKey>)
    ensures forall a, b :: IsLeast(a, s) && IsLeast(b, s) ==> a == b
  {
    forall a, b | IsLeast(a, s) && IsLeast(b, s)
      ensures a == b
    {
      if a != b {
        KeyLessTransitive(a, b, a);
        KeyLessIrreflexive(a);
      }
    }
  }

  /** `sorted(keys)`: the keys in ascending tuple order, each once. */
  function SortedKeys(s: set<UserKey>): (r: seq<UserKey>)
    ensures StrictlySorted(r)
    ensures forall k :: k in r <==> k in s
    ensures |r| == |s|
    decreases |s|
  {
    if s == {} then []
    else
      LeastExists(s);
      LeastUnique(s);
      var m :| IsLeast(m, s);
      [m] + SortedKeys(s - {m})
  }
}
