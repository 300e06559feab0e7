/**
 * The shell-style pattern match the path filter uses (`fnmatch` on POSIX,
 * where the name is not case-folded): `*` matches any run of characters,
 * slashes included, `?` any single character, every other character itself.
 * A `[` is matched as itself here, whereas fnmatch opens a character class
 * with it, so the facts below are stated only for patterns without one.
 */
module Glob {

  function Matches(name: string, pattern: string): bool
    decreases |name| + |pattern|
  {
    if pattern == [] then name == []
    else if pattern[0] == '*' then
      Matches(name, pattern[1..]) || (name != [] && Matches(name[1..], pattern))
    else
      name != [] && (pattern[0] == '?' || pattern[0] == name[0]) && Matches(name[1..], pattern[1..])
  }

  /** `any(fnmatch(name, p) for p in patterns)`. */
  predicate MatchesAny(name: string, patterns: seq<string>) {
    exists i :: 0 <= i < |patterns| && Matches(name, patterns[i])
  }

  /** No wildcard and no character-class opener: fnmatch reads every character as itself. */
  predicate Literal(pattern: string) {
    forall i :: 0 <= i < |pattern| ==> pattern[i] != '*' && pattern[i] != '?' && pattern[i] != '['
  }

  /** "*" admits every path. */
  lemma {:induction false} StarMatchesEverything(name: string)
    ensures Matches(name, "*")
  {
    if name != [] {
      StarMatchesEverything(name[1..]);
    }
  }

  /** A pattern without wildcards admits exactly the path it spells. */
  lemma {:induction false} LiteralMatchesItself(name: string, pattern: string)
    requires Literal(pattern)
    ensures Matches(name, pattern) <==> name == pattern
  {
    if pattern != [] && name != [] {
      LiteralMatchesItself(name[1..], pattern[1..]);
      if name == pattern {
        assert name[1..] == pattern[1..];
      }
      if name[0] == pattern[0] && name[1..] == pattern[1..] {
        assert name == [name[0]] + name[1..];
        assert pattern == [pattern[0]] + pattern[1..];
      }
    }
  }

  /** A literal prefix followed by "*" admits every path below that prefix. */
  lemma {:induction false} PrefixStarMatches(prefix: string, rest: string)
    requires Literal(prefix)
    ensures Matches(prefix + rest, prefix + "*")
  {
    if prefix == [] {
      assert prefix + rest == rest && prefix + "*" == "*";
      StarMatchesEverything(rest);
    } else {
      assert (prefix + rest)[1..] == prefix[1..] + rest;
      assert (prefix + "*")[1..] == prefix[1..] + "*";
      PrefixStarMatches(prefix[1..], rest);
    }
  }

  /** A literal prefix followed by "*" admits nothing outside that prefix. */
  lemma {:induction false} PrefixStarOnlyBelow(prefix: string, name: string)
    requires Literal(prefix)
    requires Matches(name, prefix + "*")
    ensures |prefix| <= |name| && name[..|prefix|] == prefix
  {
    if prefix != [] {
      assert (prefix + "*")[1..] == prefix[1..] + "*";
      PrefixStarOnlyBelow(prefix[1..], name[1..]);
      assert name[..|prefix|] == [name[0]] + name[1..][..|prefix| - 1];
    }
  }
}
