/** What a host pattern means, piece by piece: the relation `host_matches` of rules.cpp decides, told without recursion on the host. */
module GlobMeaning {
  import Glob

  function Joined(parts: seq<string>): (s: string) { if parts == [] then "" else parts[0] + Joined(parts[1..]) }

  /** A star stands for any text, a question mark for any one character, and all else for itself. */
  predicate StandsFor(c: char, part: string) { c == '*' || (|part| == 1 && (c == '?' || part[0] == c)) }

  /** The host falls into parts, one for each character of the pattern. */
  predicate FallsInto(host: string, pattern: string, parts: seq<string>)
  {
    |parts| == |pattern| && Joined(parts) == host && forall i :: 0 <= i < |pattern| ==> StandsFor(pattern[i], parts[i])
  }

  lemma {:induction false} PartsMatch(host: string, pattern: string, parts: seq<string>)
    requires FallsInto(host, pattern, parts)
    ensures Glob.Matches(host, pattern)
    decreases |pattern|, |host|
  {
    if pattern != "" {
      var first, rest := parts[0], Joined(parts[1..]);
      if pattern[0] == '*' && first != "" {
        var shorter := [first[1..]] + parts[1..];
        assert shorter[1..] == parts[1..] && host[1..] == first[1..] + rest;
        PartsMatch(host[1..], pattern, shorter);
      } else if pattern[0] == '*' {
        assert host == rest;
        PartsMatch(rest, pattern[1..], parts[1..]);
      } else {
        assert StandsFor(pattern[0], first);
        assert host[0] == first[0] && host[1..] == rest;
        PartsMatch(rest, pattern[1..], parts[1..]);
      }
    }
  }

  lemma {:induction false} MatchFalls(host: string, pattern: string) returns (parts: seq<string>)
    requires Glob.Matches(host, pattern)
    ensures FallsInto(host, pattern, parts)
    decreases |pattern|, |host|
  {
    if pattern == "" {
      parts := [];
    } else if pattern[0] == '*' && Glob.Matches(host, pattern[1..]) {
      var more := MatchFalls(host, pattern[1..]);
      parts := [""] + more;
      assert parts[1..] == more;
    } else if pattern[0] == '*' {
      var more := MatchFalls(host[1..], pattern);
      parts := [[host[0]] + more[0]] + more[1..];
      assert parts[1..] == more[1..];
      assert host == [host[0]] + host[1..];
    } else {
      var more := MatchFalls(host[1..], pattern[1..]);
      parts := [[host[0]]] + more;
      assert parts[1..] == more && host == [host[0]] + host[1..];
    }
  }

  /** A host matches a pattern exactly when it falls into parts that the characters of the pattern stand for. */
  lemma MatchesExactly(host: string, pattern: string)
    ensures Glob.Matches(host, pattern) <==> exists parts :: FallsInto(host, pattern, parts)
  {
    if Glob.Matches(host, pattern) {
      var parts := MatchFalls(host, pattern);
      assert FallsInto(host, pattern, parts);
    }
    if parts :| FallsInto(host, pattern, parts) {
      PartsMatch(host, pattern, parts);
    }
  }
}
