/** Host patterns with `*` and `?`: `host_matches` of rules.cpp, a greedy matcher with one backtracking point. */
module Glob {

  /** The meaning of a pattern: `*` stands for any run of characters, `?` for any one, all else for itself. */
  ghost predicate Matches(host: string, pattern: string)
    decreases |pattern|, |host|
  {
    if pattern == "" then host == ""
    else if pattern[0] == '*' then Matches(host, pattern[1..]) || (host != "" && Matches(host[1..], pattern))
    else host != "" && (pattern[0] == '?' || pattern[0] == host[0]) && Matches(host[1..], pattern[1..])
  }

  /** No character in `[from, to)` is a star. */
  ghost predicate NoStar(s: string, from: int, to: int)
  {
    0 <= from && to <= |s| && forall i :: from <= i < to ==> s[i] != '*'
  }

  /** A pattern that starts with a star and matches a suffix matches every longer suffix. */
  lemma {:induction false} StarAbsorbs(host: string, pattern: string, i: nat, j: nat)
    requires i <= j <= |host| && pattern != "" && pattern[0] == '*'
    requires Matches(host[j..], pattern)
    ensures Matches(host[i..], pattern)
    decreases j - i
  {
    if i < j {
      StarAbsorbs(host, pattern, i + 1, j);
      assert host[i..][1..] == host[i + 1..];
    }
  }

  /** What a leading star can match begins somewhere. */
  lemma {:induction false} StarBegins(host: string, pattern: string, i: nat) returns (k: nat)
    requires i <= |host| && pattern != "" && pattern[0] == '*' && Matches(host[i..], pattern)
    ensures i <= k <= |host| && Matches(host[k..], pattern[1..])
    decreases |host| - i
  {
    if Matches(host[i..], pattern[1..]) {
      k := i;
    } else {
      assert host[i..][1..] == host[i + 1..];
      k := StarBegins(host, pattern, i + 1);
    }
  }

  /** Pattern characters other than stars use up one character each. */
  lemma {:induction false} LiteralsConsume(host: string, pattern: string, k: nat, a: nat, b: nat)
    requires k <= |host| && a <= b && NoStar(pattern, a, b)
    requires Matches(host[k..], pattern[a..])
    ensures k + (b - a) <= |host| && Matches(host[k + (b - a)..], pattern[b..])
    decreases b - a
  {
    if a < b {
      assert pattern[a..][0] == pattern[a];
      assert host[k..][1..] == host[k + 1..] && pattern[a..][1..] == pattern[a + 1..];
      LiteralsConsume(host, pattern, k + 1, a + 1, b);
    }
  }

  /** One character matched literally or by `?`. */
  lemma OneStep(host: string, pattern: string, h: nat, p: nat)
    requires h < |host| && p <= |pattern| && (p < |pattern| ==> pattern[p] != '*')
    ensures Matches(host[h..], pattern[p..])
       <==> p < |pattern| && (pattern[p] == '?' || pattern[p] == host[h]) && Matches(host[h + 1..], pattern[p + 1..])
  {
    assert host[h..][1..] == host[h + 1..];
    if p < |pattern| {
      assert pattern[p..][0] == pattern[p] && pattern[p..][1..] == pattern[p + 1..];
    }
  }

  /** A star either matches nothing or one character more. */
  lemma StarStep(host: string, pattern: string, h: nat, p: nat)
    requires h <= |host| && p < |pattern| && pattern[p] == '*'
    ensures Matches(host[h..], pattern[p..])
       <==> Matches(host[h..], pattern[p + 1..]) || (h < |host| && Matches(host[h + 1..], pattern[p..]))
  {
    assert pattern[p..][0] == '*' && pattern[p..][1..] == pattern[p + 1..];
    if h < |host| {
      assert host[h..][1..] == host[h + 1..];
    }
  }

  /** Where the search stands: without a star it has only moved forward; with one it tries the suffix from `retry` on. */
  ghost predicate Standing(host: string, pattern: string, h: int, p: int, star: int, retry: int)
  {
    && 0 <= h <= |host| && 0 <= p <= |pattern| && -1 <= star < p && 0 <= retry <= h
    && if star < 0 then Matches(host, pattern) <==> Matches(host[h..], pattern[p..])
       else
         && pattern[star] == '*' && NoStar(pattern, star + 1, p) && h - retry == p - star - 1
         && (Matches(host, pattern) <==> Matches(host[retry..], pattern[star..]))
         && (Matches(host[retry..], pattern[star + 1..]) <==> Matches(host[h..], pattern[p..]))
  }

  /** A new star makes the old one obsolete. */
  lemma NewStar(host: string, pattern: string, h: nat, p: nat, star: int, retry: nat)
    requires Standing(host, pattern, h, p, star, retry) && p < |pattern| && pattern[p] == '*'
    ensures Matches(host, pattern) <==> Matches(host[h..], pattern[p..])
  {
    if star >= 0 {
      StarStep(host, pattern, retry, star);
      if Matches(host[retry..], pattern[star..]) {
        assert pattern[star..][0] == '*' && pattern[star..][1..] == pattern[star + 1..];
        var k := StarBegins(host, pattern[star..], retry);
        LiteralsConsume(host, pattern, k, star + 1, p);
        assert pattern[p..][0] == '*';
        StarAbsorbs(host, pattern[p..], h, k + (p - star - 1));
      }
    }
  }

  /** With the host used up, no later start of the suffix after the star has characters enough. */
  lemma HostUsedUp(host: string, pattern: string, p: nat, star: int, retry: nat)
    requires Standing(host, pattern, |host|, p, star, retry)
    ensures Matches(host, pattern) <==> Matches(host[|host|..], pattern[p..])
  {
    if star >= 0 {
      StarStep(host, pattern, retry, star);
      if Matches(host[retry..], pattern[star..]) {
        assert pattern[star..][0] == '*' && pattern[star..][1..] == pattern[star + 1..];
        var k := StarBegins(host, pattern[star..], retry);
        LiteralsConsume(host, pattern, k, star + 1, p);
      }
    }
  }

  /** Behind the end of the host only stars may be left. */
  lemma {:induction false} OnlyStars(host: string, pattern: string, p: nat)
    requires p <= |pattern|
    ensures Matches(host[|host|..], pattern[p..]) <==> forall i :: p <= i < |pattern| ==> pattern[i] == '*'
    decreases |pattern| - p
  {
    assert host[|host|..] == "";
    if p < |pattern| {
      assert pattern[p..][0] == pattern[p] && pattern[p..][1..] == pattern[p + 1..];
      OnlyStars(host, pattern, p + 1);
    }
  }

  /** One character matched literally, by `?`, or a star of the host by a star of the pattern: a match of the rest suffices. */
  lemma StepIsSound(host: string, pattern: string, h: nat, p: nat)
    requires h < |host| && p < |pattern| && (pattern[p] == '?' || pattern[p] == host[h])
    requires Matches(host[h + 1..], pattern[p + 1..])
    ensures Matches(host[h..], pattern[p..])
  {
    if pattern[p] == '*' {
      StarStep(host, pattern, h + 1, p);
      StarStep(host, pattern, h, p);
    } else {
      OneStep(host, pattern, h, p);
    }
  }

  /**
   The greedy matcher accepts only what the pattern means, and is right about every host without a star. (A star in
   the host is taken literally where the pattern has one too, so then it may miss a match; canonical names have none.)
   */
  method HostMatches(host: string, pattern: string) returns (r: bool)
    ensures r ==> Matches(host, pattern)
    ensures NoStar(host, 0, |host|) ==> (r <==> Matches(host, pattern))
  {
    hide Matches;
    ghost var plain := NoStar(host, 0, |host|);
    var h, p, star, retry := 0, 0, -1, 0;
    assert host[0..] == host && pattern[0..] == pattern;
    while h < |host|
      invariant 0 <= retry <= h <= |host| && -1 <= star < p <= |pattern|
      invariant plain ==> Standing(host, pattern, h, p, star, retry)
      invariant Matches(host[h..], pattern[p..]) ==> Matches(host, pattern)
      invariant star >= 0 ==> pattern[star] == '*' && (Matches(host[retry..], pattern[star..]) ==> Matches(host, pattern))
      decreases |pattern| - star, |host| - retry, |host| - h
    {
      if p < |pattern| && (pattern[p] == '?' || pattern[p] == host[h]) {
        if plain {
          OneStep(host, pattern, h, p);
        }
        if Matches(host[h + 1..], pattern[p + 1..]) {
          StepIsSound(host, pattern, h, p);
        }
        h := h + 1;
        p := p + 1;
      } else if p < |pattern| && pattern[p] == '*' {
        if plain {
          NewStar(host, pattern, h, p, star, retry);
        }
        StarStep(host, pattern, h, p);
        star := p;
        p := p + 1;
        retry := h;
      } else if star != -1 {
        if plain {
          OneStep(host, pattern, h, p);
        }
        StarStep(host, pattern, retry, star);
        StarStep(host, pattern, retry + 1, star);
        p := star + 1;
        retry := retry + 1;
        h := retry;
      } else {
        if plain {
          OneStep(host, pattern, h, p);
        }
        return false;
      }
    }
    if plain {
      HostUsedUp(host, pattern, p, star, retry);
    }
    OnlyStars(host, pattern, p);
    ghost var rest := p;
    while p < |pattern| && pattern[p] == '*'
      invariant rest <= p <= |pattern|
      invariant forall i :: rest <= i < p ==> pattern[i] == '*'
    {
      p := p + 1;
    }
    return p == |pattern|;
  }

  /** The pattern of the Default rule matches every host. */
  lemma {:induction false} StarMatchesAll(host: string)
    ensures Matches(host, "*")
  {
    if host != "" {
      StarMatchesAll(host[1..]);
    } else {
      assert "*"[1..] == "";
    }
  }
}
