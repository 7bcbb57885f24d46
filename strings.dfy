/** Python's `str.strip(chars)`: removal of leading and trailing characters from a set. */
module Strings {

  /** The characters `str.strip()` with no argument removes from a byte string. */
  const Whitespace: set<char> := {' ', '\t', '\n', '\r', '\U{0B}', '\U{0C}'}

  /** No character of `cs` at either end. */
  predicate IsStripped(s: string, cs: set<char>) {
    s == [] || (s[0] !in cs && s[|s| - 1] !in cs)
  }

  /** `s.lstrip(cs)`. */
  function TrimStart(s: string, cs: set<char>): (r: string)
    ensures |r| <= |s|
    ensures r == [] || r[0] !in cs
  {
    if s != [] && s[0] in cs then TrimStart(s[1..], cs) else s
  }

  /** `s.rstrip(cs)`. */
  function TrimEnd(s: string, cs: set<char>): (r: string)
    ensures |r| <= |s|
    ensures r == [] || r[|r| - 1] !in cs
  {
    if s != [] && s[|s| - 1] in cs then TrimEnd(s[..|s| - 1], cs) else s
  }

  /** `lstrip` removes the longest prefix drawn from `cs` and nothing else. */
  lemma {:induction false} TrimStartCuts(s: string, cs: set<char>)
    ensures var r := TrimStart(s, cs);
      r == s[|s| - |r|..] && forall k :: 0 <= k < |s| - |r| ==> s[k] in cs
  {
    if s != [] && s[0] in cs {
      TrimStartCuts(s[1..], cs);
    }
  }

  /** `rstrip` removes the longest suffix drawn from `cs` and nothing else. */
  lemma {:induction false} TrimEndCuts(s: string, cs: set<char>)
    ensures var r := TrimEnd(s, cs);
      r == s[..|r|] && forall k :: |r| <= k < |s| ==> s[k] in cs
  {
    if s != [] && s[|s| - 1] in cs {
      TrimEndCuts(s[..|s| - 1], cs);
    }
  }

  /** `s.strip(cs)`. */
  function Strip(s: string, cs: set<char>): (r: string)
    ensures IsStripped(r, cs)
    ensures |r| <= |s|
  {
    var t := TrimStart(s, cs);
    TrimEndCuts(t, cs);
    TrimEnd(t, cs)
  }

  /** A string that starts outside the strip set keeps its first character. */
  lemma StripKeepsFirst(s: string, cs: set<char>)
    requires s != [] && s[0] !in cs
    ensures Strip(s, cs) != [] && Strip(s, cs)[0] == s[0]
  {
    assert TrimStart(s, cs) == s;
    TrimEndCuts(s, cs);
  }

  /** A string made only of characters from `cs`. */
  predicate AllIn(s: string, cs: set<char>) {
    forall k :: 0 <= k < |s| ==> s[k] in cs
  }

  /** `Strip` removes exactly the padding: a stripped core surrounded by characters
      of `cs` is given back whole. */
  lemma {:induction false} StripPadded(p: string, m: string, q: string, cs: set<char>)
    requires AllIn(p, cs) && AllIn(q, cs) && IsStripped(m, cs)
    ensures Strip(p + m + q, cs) == m
  {
    var s := p + m + q;
    var t := TrimStart(s, cs);
    TrimStartCuts(s, cs);
    TrimEndCuts(t, cs);
    if m == [] {
      assert AllIn(s, cs) by {
        forall k | 0 <= k < |s| ensures s[k] in cs {
          if k < |p| { assert s[k] == p[k]; } else { assert s[k] == q[k - |p|]; }
        }
      }
      AllInStripsToEmpty(s, cs);
    } else {
      // TrimStart stops exactly at the core's first character
      assert s[|p|] == m[0];
      assert |t| == |m| + |q|;
      assert t == m + q;
      var u := TrimEnd(t, cs);
      assert t[|m| - 1] == m[|m| - 1];
      assert |u| == |m|;
      assert u == t[..|m|] == m;
    }
  }

  /** A string made only of stripped characters strips to nothing. */
  lemma {:induction false} AllInStripsToEmpty(s: string, cs: set<char>)
    requires AllIn(s, cs)
    ensures Strip(s, cs) == []
  {
    TrimStartCuts(s, cs);
  }

  /** Stripping twice is stripping once. */
  lemma StripIdempotent(s: string, cs: set<char>)
    ensures Strip(Strip(s, cs), cs) == Strip(s, cs)
  {
    StripPadded([], Strip(s, cs), [], cs);
    assert [] + Strip(s, cs) + [] == Strip(s, cs);
  }

  /** A string with some character outside `cs` does not strip to nothing. */
  lemma StripKeepsContent(s: string, cs: set<char>)
    requires !AllIn(s, cs)
    ensures Strip(s, cs) != []
  {
    var k :| 0 <= k < |s| && s[k] !in cs;
    var t := TrimStart(s, cs);
    TrimStartCuts(s, cs);
    TrimEndCuts(t, cs);
    assert |s| - |t| <= k;
    assert t[k - (|s| - |t|)] == s[k];
  }
}
