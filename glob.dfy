/** The part of `fnmatch` the build script's exclude patterns use: `*` matches any
    run of characters, `?` any single character, every other character itself. */
module Glob {

  /** `fnmatch(name, pattern)` for patterns without `[...]` classes. */
  function Matches(name: string, pattern: string): (r: bool)
    ensures r && '*' !in pattern ==> |name| == |pattern|
    decreases |name| + |pattern|
  {
    if pattern == [] then name == []
    else if pattern[0] == '*' then
      Matches(name, pattern[1..]) || (name != [] && Matches(name[1..], pattern))
    else
      name != [] && (pattern[0] == '?' || name[0] == pattern[0]) && Matches(name[1..], pattern[1..])
  }

  /** A pattern without wildcards. */
  predicate IsLiteral(pattern: string) {
    forall k :: 0 <= k < |pattern| ==> pattern[k] != '*' && pattern[k] != '?'
  }

  /** A literal pattern (`.DS_Store`, `test-output`) matches exactly its own text. */
  lemma {:induction false} LiteralMatches(name: string, pattern: string)
    requires IsLiteral(pattern)
    ensures Matches(name, pattern) <==> name == pattern
  {
    if pattern != [] && name != [] {
      assert IsLiteral(pattern[1..]) by {
        forall k | 0 <= k < |pattern[1..]| ensures pattern[1..][k] != '*' && pattern[1..][k] != '?' {
          assert pattern[1..][k] == pattern[k + 1];
        }
      }
      LiteralMatches(name[1..], pattern[1..]);
      if name[1..] == pattern[1..] && name[0] == pattern[0] {
        assert name == [name[0]] + name[1..];
        assert pattern == [pattern[0]] + pattern[1..];
      }
    }
  }

  /** `*` alone matches every name. */
  lemma {:induction false} StarMatchesAll(name: string)
    ensures Matches(name, "*")
  {
    if name != [] {
      StarMatchesAll(name[1..]);
    }
  }

  /** `*` followed by a literal (`*.pyc`) matches exactly the names ending in it. */
  lemma {:induction false} StarSuffixMatches(name: string, suffix: string)
    requires IsLiteral(suffix)
    ensures Matches(name, "*" + suffix) <==> |suffix| <= |name| && name[|name| - |suffix|..] == suffix
  {
    var pattern := "*" + suffix;
    assert pattern[1..] == suffix;
    LiteralMatches(name, suffix);
    if name != [] {
      StarSuffixMatches(name[1..], suffix);
      if |suffix| < |name| {
        assert name[1..][|name[1..]| - |suffix|..] == name[|name| - |suffix|..];
      }
    }
  }

  /** A literal followed by `*` (`coverage*`, `nose*`) matches exactly the names
      starting with it. */
  lemma {:induction false} PrefixStarMatches(name: string, prefix: string)
    requires IsLiteral(prefix)
    ensures Matches(name, prefix + "*") <==> |prefix| <= |name| && name[..|prefix|] == prefix
  {
    if prefix == [] {
      assert prefix + "*" == "*";
      StarMatchesAll(name);
    } else {
      var pattern := prefix + "*";
      assert pattern[0] == prefix[0] && pattern[1..] == prefix[1..] + "*";
      assert IsLiteral(prefix[1..]) by {
        forall k | 0 <= k < |prefix[1..]| ensures prefix[1..][k] != '*' && prefix[1..][k] != '?' {
          assert prefix[1..][k] == prefix[k + 1];
        }
      }
      if name != [] {
        PrefixStarMatches(name[1..], prefix[1..]);
        if |prefix| <= |name| && name[..|prefix|] == prefix {
          assert name[1..][..|prefix| - 1] == name[..|prefix|][1..];
        }
        if |prefix| - 1 <= |name| - 1 && name[1..][..|prefix| - 1] == prefix[1..] && name[0] == prefix[0] {
          assert name[..|prefix|] == [name[0]] + name[1..][..|prefix| - 1];
          assert prefix == [prefix[0]] + prefix[1..];
        }
      }
    }
  }
}
