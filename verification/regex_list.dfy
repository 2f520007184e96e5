/**
 Matching one subject against a list of configured regular expressions, the
 helper `str_matches_reg_arr` of the entity-ID filter. The regular-expression
 engine itself (PCRE behind `preg_match`) is a parameter: a Matcher says
 whether a delimited pattern matches a subject string.
 */
module RegexList {
  import opened Wrappers
  import opened PhpValues
  import opened Decimal

  /** `(pattern, subject) -> preg_match(pattern, subject) == 1`. An invalid
      pattern makes `preg_match` return false, which a Matcher reports as no
      match. */
  type Matcher = (string, string) -> bool

  predicate Delimited(p: string)
  {
    |p| > 0 && p[0] == '/'
  }

  /** A configured pattern without a leading `/` is wrapped in slashes; one
      with it is taken as already delimited. The empty pattern is wrapped too
      (its missing first character reads as the empty string). */
  function Normalise(p: string): (r: string)
    ensures Delimited(r)
    ensures Delimited(p) ==> r == p
    ensures !Delimited(p) ==> r == "/" + p + "/"
  {
    if Delimited(p) then p else "/" + p + "/"
  }

  /** Normalising twice is normalising once. */
  lemma NormaliseIdempotent(p: string)
    ensures Normalise(Normalise(p)) == Normalise(p)
  {
  }

  /** `preg_match($pattern, $subject)` is truthy; a subject that cannot be
      converted to a string (an array) never matches. */
  predicate PregMatch(matches: Matcher, pattern: string, subject: Value)
  {
    match ToSubject(subject)
    case None => false
    case Some(s) => matches(pattern, s)
  }

  /** The subject `preg_match` sees: a string as it is, null and false as the
      empty string, true as "1", an integer in decimal; an array never matches. */
  lemma PregMatchSubject(matches: Matcher, pattern: string, subject: Value)
    ensures subject.Arr? ==> !PregMatch(matches, pattern, subject)
    ensures subject.Str? ==> (PregMatch(matches, pattern, subject) <==> matches(pattern, subject.s))
    ensures subject.Null? || subject == Bool(false) ==> (PregMatch(matches, pattern, subject) <==> matches(pattern, ""))
    ensures subject == Bool(true) ==> (PregMatch(matches, pattern, subject) <==> matches(pattern, "1"))
    ensures subject.Int? ==> (PregMatch(matches, pattern, subject) <==> matches(pattern, IntToString(subject.n)))
  {
  }

  function NormaliseAll(patterns: seq<string>): (r: seq<string>)
    ensures |r| == |patterns|
    ensures forall i :: 0 <= i < |patterns| ==> r[i] == Normalise(patterns[i])
  {
    seq(|patterns|, i requires 0 <= i < |patterns| => Normalise(patterns[i]))
  }

  /** The normalised patterns that match `subject`, in configuration order. */
  function MatchingPatterns(subject: Value, patterns: seq<string>, matches: Matcher): (r: seq<string>)
    ensures |r| <= |patterns|
    ensures forall x :: x in r <==>
      exists i :: 0 <= i < |patterns| && x == Normalise(patterns[i]) && PregMatch(matches, x, subject)
  {
    if |patterns| == 0 then []
    else
      var p := Normalise(patterns[0]);
      var rest := MatchingPatterns(subject, patterns[1..], matches);
      assert forall i :: 0 < i < |patterns| ==> patterns[i] == patterns[1..][i - 1];
      (if PregMatch(matches, p, subject) then [p] else []) + rest
  }

  /** `a` can be obtained from `b` by deleting elements. */
  ghost predicate IsSubsequence(a: seq<string>, b: seq<string>)
    decreases |b|
  {
    if |b| == 0 then |a| == 0
    else IsSubsequence(a, b[1..]) || (|a| > 0 && a[0] == b[0] && IsSubsequence(a[1..], b[1..]))
  }

  /** The matches keep the order of the configuration: they are a subsequence
      of the normalised pattern list. */
  lemma {:induction false} MatchingPatternsSubsequence(subject: Value, patterns: seq<string>, matches: Matcher)
    ensures IsSubsequence(MatchingPatterns(subject, patterns, matches), NormaliseAll(patterns))
  {
    if |patterns| > 0 {
      var m := MatchingPatterns(subject, patterns, matches);
      var rest := MatchingPatterns(subject, patterns[1..], matches);
      var n := NormaliseAll(patterns);
      MatchingPatternsSubsequence(subject, patterns[1..], matches);
      assert n[1..] == NormaliseAll(patterns[1..]);
      if PregMatch(matches, n[0], subject) {
        assert m == [n[0]] + rest;
        assert m[0] == n[0] && m[1..] == rest;
      } else {
        assert m == rest;
      }
    }
  }

  /** Filtering a concatenation filters each part: together with the case of a
      single pattern this determines the result completely. */
  lemma {:induction false} MatchingPatternsAppend(subject: Value, a: seq<string>, b: seq<string>, matches: Matcher)
    ensures MatchingPatterns(subject, a + b, matches)
         == MatchingPatterns(subject, a, matches) + MatchingPatterns(subject, b, matches)
  {
    if |a| > 0 {
      assert (a + b)[1..] == a[1..] + b;
      MatchingPatternsAppend(subject, a[1..], b, matches);
    } else {
      assert a + b == b;
    }
  }

  /** The first match is the normalised form of the first configured pattern
      that matches, and there is none exactly when no pattern matches. */
  lemma {:induction false} MatchingPatternsFirst(subject: Value, patterns: seq<string>, matches: Matcher, j: nat)
    requires j < |patterns| && PregMatch(matches, Normalise(patterns[j]), subject)
    requires forall i :: 0 <= i < j ==> !PregMatch(matches, Normalise(patterns[i]), subject)
    ensures |MatchingPatterns(subject, patterns, matches)| > 0
    ensures MatchingPatterns(subject, patterns, matches)[0] == Normalise(patterns[j])
  {
    if j > 0 {
      MatchingPatternsFirst(subject, patterns[1..], matches, j - 1);
    }
  }

  /** Pattern `j` is the first configured pattern that, normalised, matches. */
  ghost predicate IsFirstMatch(subject: Value, patterns: seq<string>, matches: Matcher, j: int)
  {
    && 0 <= j < |patterns|
    && PregMatch(matches, Normalise(patterns[j]), subject)
    && forall i :: 0 <= i < j ==> !PregMatch(matches, Normalise(patterns[i]), subject)
  }

  lemma MatchingPatternsFirstEach(subject: Value, patterns: seq<string>, matches: Matcher)
    ensures forall j :: IsFirstMatch(subject, patterns, matches, j) ==>
      |MatchingPatterns(subject, patterns, matches)| > 0
      && MatchingPatterns(subject, patterns, matches)[0] == Normalise(patterns[j])
  {
    forall j | IsFirstMatch(subject, patterns, matches, j)
      ensures |MatchingPatterns(subject, patterns, matches)| > 0
      ensures MatchingPatterns(subject, patterns, matches)[0] == Normalise(patterns[j])
    {
      MatchingPatternsFirst(subject, patterns, matches, j);
    }
  }

  /** No match at all exactly when no normalised pattern matches. */
  lemma MatchingPatternsEmpty(subject: Value, patterns: seq<string>, matches: Matcher)
    ensures |MatchingPatterns(subject, patterns, matches)| == 0 <==>
      forall i :: 0 <= i < |patterns| ==> !PregMatch(matches, Normalise(patterns[i]), subject)
  {
    var r := MatchingPatterns(subject, patterns, matches);
    if |r| > 0 {
      assert r[0] in r;
    }
  }
}
