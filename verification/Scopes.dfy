/** The space-joined `scope` claim (section 4.2 of RFC 8693): its printer, its parser, and how they compose. */
module Scopes {

  // The characters with the Unicode White_Space property.
  predicate IsWhite(c: char) {
    || '\U{0009}' <= c <= '\U{000D}'
    || c == ' ' || c == '\U{0085}' || c == '\U{00A0}' || c == '\U{1680}'
    || '\U{2000}' <= c <= '\U{200A}'
    || c == '\U{2028}' || c == '\U{2029}' || c == '\U{202F}' || c == '\U{205F}' || c == '\U{3000}'
  }

  // One non-empty word without white space.
  predicate IsWord(s: string) {
    s != "" && forall i :: 0 <= i < |s| ==> !IsWhite(s[i])
  }

  predicate AllWords(ss: seq<string>) {
    forall i :: 0 <= i < |ss| ==> IsWord(ss[i])
  }

  // The printer: scopes joined by single spaces.
  function Join(ss: seq<string>): string {
    if |ss| == 0 then ""
    else if |ss| == 1 then ss[0]
    else ss[0] + " " + Join(ss[1..])
  }

  // Length of the longest prefix free of white space.
  function WordLength(s: string): (n: nat)
    ensures n <= |s|
    ensures forall i :: 0 <= i < n ==> !IsWhite(s[i])
    ensures n < |s| ==> IsWhite(s[n])
  {
    if s == "" || IsWhite(s[0]) then 0 else 1 + WordLength(s[1..])
  }

  // The parser: the maximal white-space-free runs, left to right.
  function Words(s: string): (ws: seq<string>)
    ensures AllWords(ws)
    decreases |s|
  {
    if s == "" then []
    else if IsWhite(s[0]) then Words(s[1..])
    else var n := WordLength(s); [s[..n]] + Words(s[n..])
  }

  function WordsOfAll(ss: seq<string>): seq<string> {
    if ss == [] then [] else Words(ss[0]) + WordsOfAll(ss[1..])
  }

  // Prefixing a word-free-standing text by `a` and a separator only adds the words of `a`.
  lemma {:induction false} WordsSplitAtWhite(a: string, w: char, b: string)
    requires IsWhite(w)
    ensures Words(a + [w] + b) == Words(a) + Words(b)
    decreases |a|
  {
    var s := a + [w] + b;
    if a == "" {
      assert s[1..] == b;
    } else if IsWhite(a[0]) {
      assert s[1..] == a[1..] + [w] + b;
      WordsSplitAtWhite(a[1..], w, b);
    } else {
      var n := WordLength(a);
      WordLengthStopsAtWhite(a, w, b);
      assert s[..n] == a[..n];
      assert s[n..] == a[n..] + [w] + b;
      WordsSplitAtWhite(a[n..], w, b);
    }
  }

  lemma {:induction false} WordLengthStopsAtWhite(a: string, w: char, b: string)
    requires IsWhite(w)
    ensures WordLength(a + [w] + b) == WordLength(a)
  {
    if a != "" && !IsWhite(a[0]) {
      assert (a + [w] + b)[1..] == a[1..] + [w] + b;
      WordLengthStopsAtWhite(a[1..], w, b);
    }
  }

  /** Parsing a printed list yields the words of each printed scope, in order. */
  lemma {:induction false} ParsePrinted(ss: seq<string>)
    ensures Words(Join(ss)) == WordsOfAll(ss)
  {
    if |ss| == 1 {
      assert ss[1..] == [];
      assert Words(ss[0]) + [] == Words(ss[0]);
    } else if |ss| > 1 {
      ParsePrinted(ss[1..]);
      WordsSplitAtWhite(ss[0], ' ', Join(ss[1..]));
    }
  }

  lemma WordParsesToItself(s: string)
    requires IsWord(s)
    ensures Words(s) == [s]
  {
    var n := WordLength(s);
    assert s[..n] == s && s[n..] == "";
  }

  lemma {:induction false} WordListParsesToItself(ss: seq<string>)
    requires AllWords(ss)
    ensures WordsOfAll(ss) == ss
  {
    if ss != [] {
      WordParsesToItself(ss[0]);
      WordListParsesToItself(ss[1..]);
    }
  }

  /** The round trip is the identity exactly on lists of non-empty scopes without white space. */
  lemma RoundTripExact(ss: seq<string>)
    ensures Words(Join(ss)) == ss <==> AllWords(ss)
  {
    ParsePrinted(ss);
    if AllWords(ss) {
      WordListParsesToItself(ss);
    }
  }

  /** The printer puts exactly one space between two lists, and nothing around a single scope. */
  lemma {:induction false} JoinedBySpaces(a: seq<string>, b: seq<string>, s: string)
    ensures Join([]) == "" && Join([s]) == s
    ensures a != [] && b != [] ==> Join(a + b) == Join(a) + " " + Join(b)
  {
    if |a| == 1 && b != [] {
      assert (a + b)[1..] == b;
    } else if |a| > 1 && b != [] {
      assert (a + b)[1..] == a[1..] + b;
      JoinedBySpaces(a[1..], b, s);
    }
  }
}
