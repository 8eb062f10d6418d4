/**
 * The contact form's email shape test, the unanchored regular expression
 * `\S+@\S+\.\S+` applied with `RegExp.prototype.test`. It is a coarse shape
 * check, not the address grammar of RFC 5322.
 */
module EmailPattern {
  import opened Text

  /** `t` as a whole matches `\S+@\S+\.\S+`: no whitespace, an '@' with at
      least one character before it, and a later '.' with at least one
      character between the two and at least one after it. */
  ghost predicate FullMatch(t: string) {
    NoWhitespace(t) && exists i, j | 0 < i < j < |t| :: SeparatorsAt(t, i, j)
  }

  /** '@' at `i` and '.' at `j`, each with at least one character on both
      sides of it inside `t`. */
  predicate SeparatorsAt(t: string, i: int, j: int) {
    0 < i && i + 1 < j && j + 1 < |t| && t[i] == '@' && t[j] == '.'
  }

  /** What `test` answers for an unanchored pattern: some substring matches. */
  ghost predicate RegexTest(s: string) {
    exists p, e | 0 <= p <= e <= |s| :: FullMatch(s[p..e])
  }

  /** The executable shape test, checking the shortest candidate around each
      '@' and '.' pair: one character before the '@' and one after the '.'. */
  predicate HasEmailShape(s: string) {
    exists a, b | 0 < a < b < |s| :: ShortestMatchAt(s, a, b)
  }

  /** `s[a - 1..b + 2]`, the shortest substring around an '@' at `a` and a
      '.' at `b`, matches. */
  predicate ShortestMatchAt(s: string, a: int, b: int) {
    SeparatorsAt(s, a, b) && NoWhitespace(s[a - 1..b + 2])
  }

  /** A slice of a whitespace-free string is whitespace-free. */
  lemma NoWhitespaceSlice(t: string, lo: int, hi: int)
    requires 0 <= lo <= hi <= |t| && NoWhitespace(t)
    ensures NoWhitespace(t[lo..hi])
  {
    assert forall k | 0 <= k < hi - lo :: t[lo..hi][k] == t[lo + k];
  }

  /** The shortest candidate the executable test checks is a match. */
  lemma ShapeGivesRegexMatch(s: string)
    requires HasEmailShape(s)
    ensures RegexTest(s)
  {
    var a, b :| 0 < a < b < |s| && ShortestMatchAt(s, a, b);
    var t := s[a - 1..b + 2];
    assert SeparatorsAt(t, 1, b - a + 1);
    assert FullMatch(t);
  }

  /** Any matching substring contains a shortest candidate. */
  lemma RegexMatchGivesShape(s: string)
    requires RegexTest(s)
    ensures HasEmailShape(s)
  {
    var p, e :| 0 <= p <= e <= |s| && FullMatch(s[p..e]);
    var t := s[p..e];
    var i, j :| 0 < i < j < |t| && SeparatorsAt(t, i, j);
    var a, b := p + i, p + j;
    assert SeparatorsAt(s, a, b) by {
      assert s[a] == t[i] && s[b] == t[j];
    }
    assert s[a - 1..b + 2] == t[i - 1..j + 2];
    NoWhitespaceSlice(t, i - 1, j + 2);
    assert ShortestMatchAt(s, a, b);
  }

  /** The executable test answers exactly what the regular expression does. */
  lemma ShapeIffRegexTest(s: string)
    ensures HasEmailShape(s) <==> RegexTest(s)
  {
    if HasEmailShape(s) { ShapeGivesRegexMatch(s); }
    if RegexTest(s) { RegexMatchGivesShape(s); }
  }

  /** An address that contains no '@' never has the shape. */
  lemma NoAtSignNoShape(s: string)
    requires '@' !in s
    ensures !HasEmailShape(s)
  {
  }
}
