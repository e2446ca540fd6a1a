/**
 * The string operations the script relies on: `str.strip()`, `str.lower()`
 * (as far as it matters for `bool_arg`), `bool_arg` itself, and `str(n)` for
 * the user counts written into the summary rows.
 */
module Text {

  /** The characters Python's `str.isspace()` accepts, which `str.strip()` removes. */
  predicate IsSpace(c: char)
  {
    || c == ' '
    || ('\t' <= c <= '\r')
    || ('\U{1c}' <= c <= '\U{1f}')
    || c == '\U{85}' || c == '\U{a0}' || c == '\U{1680}'
    || ('\U{2000}' <= c <= '\U{200a}')
    || c == '\U{2028}' || c == '\U{2029}' || c == '\U{202f}' || c == '\U{205f}' || c == '\U{3000}'
  }

  predicate AllSpace(s: string)
  {
    forall i :: 0 <= i < |s| ==> IsSpace(s[i])
  }

  /** `s.lstrip()`: the suffix left after dropping the leading whitespace. */
  function TrimStart(s: string): (r: string)
    ensures |r| <= |s|
    ensures forall i :: 0 <= i < |r| ==> r[i] == s[|s| - |r| + i]
    ensures forall i :: 0 <= i < |s| - |r| ==> IsSpace(s[i])
    ensures r == [] || !IsSpace(r[0])
  {
    if s != [] && IsSpace(s[0]) then
      var r := TrimStart(s[1..]);
      assert forall i :: 1 <= i < |s| - |r| ==> s[i] == s[1..][i - 1];
      r
    else s
  }

  /** `s.rstrip()`: the prefix left after dropping the trailing whitespace. */
  function TrimEnd(s: string): (r: string)
    ensures |r| <= |s|
    ensures forall i :: 0 <= i < |r| ==> r[i] == s[i]
    ensures forall i :: |r| <= i < |s| ==> IsSpace(s[i])
    ensures r == [] || !IsSpace(r[|r| - 1])
  {
    if s != [] && IsSpace(s[|s| - 1]) then
      var r := TrimEnd(s[..|s| - 1]);
      assert forall i :: |r| <= i < |s| - 1 ==> s[i] == s[..|s| - 1][i];
      r
    else s
  }

  /**
   * `s.strip()`: neither end of the result is whitespace, and nothing but
   * whitespace strips to the empty string.
   */
  function Strip(s: string): (r: string)
    ensures |r| <= |s|
    ensures r == [] || (!IsSpace(r[0]) && !IsSpace(r[|r| - 1]))
    ensures r == [] <==> AllSpace(s)
  {
    TrimEnd(TrimStart(s))
  }

  /**
   * `c.lower()` on ASCII letters. No character outside A-Z lowers to one of
   * the characters of the accepted words below, so membership in them is
   * decided exactly by this restriction.
   */
  function LowerChar(c: char): char
  {
    if 'A' <= c <= 'Z' then (c as int + 32) as char else c
  }

  function Lower(s: string): (r: string)
    ensures |r| == |s|
    ensures forall i :: 0 <= i < |s| ==> r[i] == LowerChar(s[i])
  {
    if s == [] then [] else [LowerChar(s[0])] + Lower(s[1..])
  }

  /** The spellings `bool_arg` accepts as true, after stripping and lower-casing. */
  const TrueWords: set<string> := {"true", "1", "yes", "y"}

  /** Reads a flag value: true when, stripped and lower-cased, it is one of the `TrueWords`. */
  function BoolArg(v: string): bool
  {
    Lower(Strip(v)) in TrueWords
  }

  lemma {:induction false} TrimStartPadded(pre: string, rest: string)
    requires AllSpace(pre)
    ensures TrimStart(pre + rest) == TrimStart(rest)
    decreases |pre|
  {
    if pre != [] {
      assert (pre + rest)[0] == pre[0];
      assert (pre + rest)[1..] == pre[1..] + rest;
      TrimStartPadded(pre[1..], rest);
    } else {
      assert pre + rest == rest;
    }
  }

  lemma {:induction false} TrimEndPadded(rest: string, post: string)
    requires AllSpace(post)
    ensures TrimEnd(rest + post) == TrimEnd(rest)
    decreases |post|
  {
    if post != [] {
      assert (rest + post)[|rest + post| - 1] == post[|post| - 1];
      assert (rest + post)[..|rest + post| - 1] == rest + post[..|post| - 1];
      TrimEndPadded(rest, post[..|post| - 1]);
    } else {
      assert rest + post == rest;
    }
  }

  lemma {:induction false} TrimStartAllSpace(s: string)
    requires AllSpace(s)
    ensures TrimStart(s) == []
    decreases |s|
  {
    if s != [] {
      TrimStartAllSpace(s[1..]);
    }
  }

  lemma {:induction false} TrimStartAppend(v: string, post: string)
    requires TrimStart(v) != []
    ensures TrimStart(v + post) == TrimStart(v) + post
    decreases |v|
  {
    assert v != [];
    assert (v + post)[0] == v[0];
    if IsSpace(v[0]) {
      assert (v + post)[1..] == v[1..] + post;
      TrimStartAppend(v[1..], post);
    }
  }

  /** Padding a string with whitespace on either side does not change what `strip` returns. */
  lemma StripIgnoresPadding(pre: string, v: string, post: string)
    requires AllSpace(pre) && AllSpace(post)
    ensures Strip(pre + v + post) == Strip(v)
  {
    assert pre + v + post == pre + (v + post);
    TrimStartPadded(pre, v + post);
    var a := TrimStart(v);
    if a == [] {
      assert v[..|v|] == v;
      forall i | 0 <= i < |v + post| ensures IsSpace((v + post)[i]) {
        if i < |v| { assert (v + post)[i] == v[i]; } else { assert (v + post)[i] == post[i - |v|]; }
      }
      TrimStartAllSpace(v + post);
    } else {
      TrimStartAppend(v, post);
      TrimEndPadded(a, post);
    }
  }

  /** Surrounding whitespace never changes the verdict of `bool_arg`. */
  lemma BoolArgIgnoresPadding(pre: string, v: string, post: string)
    requires AllSpace(pre) && AllSpace(post)
    ensures BoolArg(pre + v + post) == BoolArg(v)
  {
    StripIgnoresPadding(pre, v, post);
  }

  lemma LowerCharKeepsSpace(c: char)
    ensures IsSpace(LowerChar(c)) == IsSpace(c)
  {
  }

  lemma {:induction false} TrimStartLower(s: string)
    ensures TrimStart(Lower(s)) == Lower(TrimStart(s))
    decreases |s|
  {
    var l := Lower(s);
    if s != [] {
      LowerCharKeepsSpace(s[0]);
      assert l[0] == LowerChar(s[0]);
      assert l[1..] == Lower(s[1..]);
      TrimStartLower(s[1..]);
    } else {
      assert l == [];
    }
  }

  lemma LowerPrefix(s: string, k: nat)
    requires k <= |s|
    ensures Lower(s)[..k] == Lower(s[..k])
  {
  }

  lemma {:induction false} TrimEndLower(s: string)
    ensures TrimEnd(Lower(s)) == Lower(TrimEnd(s))
    decreases |s|
  {
    var l := Lower(s);
    if s != [] {
      LowerCharKeepsSpace(s[|s| - 1]);
      assert l[|s| - 1] == LowerChar(s[|s| - 1]);
      LowerPrefix(s, |s| - 1);
      TrimEndLower(s[..|s| - 1]);
    } else {
      assert l == [];
    }
  }

  lemma LowerIdempotent(s: string)
    ensures Lower(Lower(s)) == Lower(s)
  {
    var l := Lower(s);
    forall i | 0 <= i < |s| ensures Lower(l)[i] == l[i] {
      assert l[i] == LowerChar(s[i]);
    }
  }

  /** `bool_arg` is case-insensitive: lower-casing its argument first changes nothing. */
  lemma BoolArgIgnoresCase(v: string)
    ensures BoolArg(Lower(v)) == BoolArg(v)
  {
    TrimStartLower(v);
    TrimEndLower(TrimStart(v));
    var s := Strip(v);
    assert Strip(Lower(v)) == Lower(s);
    LowerIdempotent(s);
  }

  predicate AllDigits(s: string)
  {
    forall i :: 0 <= i < |s| ==> '0' <= s[i] <= '9'
  }

  function DigitChar(d: nat): (c: char)
    requires d < 10
    ensures '0' <= c <= '9'
  {
    ('0' as int + d) as char
  }

  /** `str(n)` for a count: decimal digits, no leading zero except for 0 itself. */
  function DecimalString(n: nat): (r: string)
    ensures |r| >= 1 && AllDigits(r)
    ensures r[0] == '0' <==> n == 0
    ensures n == 0 ==> r == "0"
    decreases n
  {
    if n < 10 then [DigitChar(n)] else DecimalString(n / 10) + [DigitChar(n % 10)]
  }

  /** The number a string of decimal digits denotes (`int(s)`). */
  function DecimalValue(s: string): nat
    requires AllDigits(s)
  {
    if s == [] then 0 else DecimalValue(s[..|s| - 1]) * 10 + (s[|s| - 1] as int - '0' as int)
  }

  /** Reading back a rendered count gives the count. */
  lemma {:induction false} DecimalRoundTrip(n: nat)
    ensures DecimalValue(DecimalString(n)) == n
    decreases n
  {
    if n >= 10 {
      var s := DecimalString(n);
      assert s[..|s| - 1] == DecimalString(n / 10);
      DecimalRoundTrip(n / 10);
    }
  }
}
