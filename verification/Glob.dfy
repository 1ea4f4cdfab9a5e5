/** Pattern matching of scopes and resources. */
module Glob {

  predicate StartsWith(value: string, prefix: string) {
    prefix <= value
  }

  predicate EndsWith(s: string, suffix: string) {
    |suffix| <= |s| && s[|s| - |suffix|..] == suffix
  }

  // The cascade of branches of the matcher, in its order.
  predicate MatchPattern(pattern: string, value: string) {
    if pattern == "*" || pattern == value then true
    else if EndsWith(pattern, "/*") then StartsWith(value, pattern[..|pattern| - 1])
    else if EndsWith(pattern, ":*") then StartsWith(value, pattern[..|pattern| - 1])
    else if EndsWith(pattern, "-*") then StartsWith(value, pattern[..|pattern| - 1])
    else if EndsWith(pattern, "*") then StartsWith(value, pattern[..|pattern| - 1])
    else false
  }

  // The values a pattern accepts are included in those another accepts.
  ghost predicate Contained(p: string, q: string) {
    forall v :: MatchPattern(p, v) ==> MatchPattern(q, v)
  }

  /** What the cascade means: equality, or a trailing star and the rest a prefix. */
  lemma MatchMeaning(pattern: string, value: string)
    ensures MatchPattern(pattern, value) <==>
            pattern == value || (EndsWith(pattern, "*") && pattern[..|pattern| - 1] <= value)
  {
    TwoLastIsLast(pattern, '/');
    TwoLastIsLast(pattern, ':');
    TwoLastIsLast(pattern, '-');
  }

  lemma TwoLastIsLast(s: string, c: char)
    ensures EndsWith(s, [c] + "*") ==> EndsWith(s, "*")
  {
    if EndsWith(s, [c] + "*") {
      assert s[|s| - 1..] == s[|s| - 2..][1..] == "*";
    }
  }

  /** Accepting a pattern as a string is containment of its language, with one exception:
      a starred pattern against itself with one more star appended. */
  lemma AcceptsExactlyContainment(q: string, p: string)
    ensures MatchPattern(q, p) <==> Contained(p, q) || (EndsWith(p, "*") && q == p + "*")
    ensures EndsWith(p, "*") && q == p + "*" ==> !Contained(p, q)
  {
    MatchMeaning(p, p);
    MatchMeaning(q, p);
    if EndsWith(p, "*") && q == p + "*" {
      var stem := p[..|p| - 1];
      assert q[..|q| - 1] == p;
      MatchMeaning(p, stem);
      MatchMeaning(q, stem);
      assert MatchPattern(p, stem) && !MatchPattern(q, stem);
    } else if MatchPattern(q, p) {
      forall v | MatchPattern(p, v) ensures MatchPattern(q, v) {
        MatchMeaning(p, v);
        MatchMeaning(q, v);
        if q != p && p != v {
          StemOfAccepting(q, p);
        }
      }
    }
  }

  // The stem of an accepting pattern is a prefix of the stem of what it accepts.
  lemma StemOfAccepting(q: string, p: string)
    requires EndsWith(q, "*") && EndsWith(p, "*") && q != p && q != p + "*"
    requires q[..|q| - 1] <= p
    ensures q[..|q| - 1] <= p[..|p| - 1]
  {
    assert q == q[..|q| - 1] + "*";
  }

  // The only star, if any, is the last character.
  predicate StarOnlyLast(p: string) {
    forall i :: 0 <= i < |p| - 1 ==> p[i] != '*'
  }

  lemma AddedStarIsSecond(p: string)
    requires EndsWith(p, "*")
    ensures !StarOnlyLast(p + "*")
  {
    assert p[|p| - 1..][0] == '*';
    assert (p + "*")[|p| - 1] == '*';
  }

  /** On patterns whose only star is last, accepting is containment. */
  lemma AcceptsIsContainment(q: string, p: string)
    requires StarOnlyLast(q)
    ensures MatchPattern(q, p) <==> Contained(p, q)
  {
    AcceptsExactlyContainment(q, p);
    if EndsWith(p, "*") {
      AddedStarIsSecond(p);
    }
  }

  /** When a chain of two acceptances fails to compose: exactly when the outer pattern is
      the middle one plus a star and the value does not start with the whole middle pattern. */
  lemma TransitivityExact(r: string, q: string, p: string)
    requires MatchPattern(r, q) && MatchPattern(q, p)
    ensures MatchPattern(r, p) <==> !(EndsWith(q, "*") && r == q + "*" && !(q <= p))
  {
    AcceptsExactlyContainment(r, q);
    MatchMeaning(r, p);
    if EndsWith(q, "*") && r == q + "*" {
      assert r[..|r| - 1] == q;
      assert r != q;
      if r == p { assert q <= p; }
    }
  }

  /** Matching composes on patterns whose only star is last. */
  lemma Transitive(r: string, q: string, p: string)
    requires StarOnlyLast(r) && MatchPattern(r, q) && MatchPattern(q, p)
    ensures MatchPattern(r, p)
  {
    TransitivityExact(r, q, p);
    if EndsWith(q, "*") {
      AddedStarIsSecond(q);
    }
  }

  /** A double-starred pattern breaks the composition. */
  lemma DoubleStarBreaksTransitivity()
    ensures MatchPattern("s**", "s*") && MatchPattern("s*", "s") && !MatchPattern("s**", "s")
  {
    MatchMeaning("s**", "s*");
    MatchMeaning("s*", "s");
    assert "s**"[..2] == "s*";
  }
}
