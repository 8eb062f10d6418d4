/**
 * JavaScript string whitespace, as used by `String.prototype.trim` and by
 * the regular-expression classes `\s` / `\S`. Both use the same set: the
 * WhiteSpace and LineTerminator productions of ECMA-262 (sections 12.2 and
 * 12.3), which is defined once here.
 */
module Text {

  /** True iff `c` is an ECMAScript WhiteSpace or LineTerminator character. */
  predicate IsJsWhitespace(c: char) {
    || c == '\t' || c == '\U{B}' || c == '\U{C}' || c == ' '
    || c == '\U{A0}' || c == '\U{1680}'
    || ('\U{2000}' <= c <= '\U{200A}')
    || c == '\U{202F}' || c == '\U{205F}' || c == '\U{3000}' || c == '\U{FEFF}'
    || c == '\n' || c == '\r' || c == '\U{2028}' || c == '\U{2029}'
  }

  /** True iff no character of `s` is whitespace (what `\S+` asks of a run). */
  predicate NoWhitespace(s: string) {
    forall k | 0 <= k < |s| :: !IsJsWhitespace(s[k])
  }

  /** True iff every character of `s` is whitespace. */
  predicate AllWhitespace(s: string) {
    forall k | 0 <= k < |s| :: IsJsWhitespace(s[k])
  }

  /** `s.trim()`: whitespace removed from both ends, one character at a
      time. What remains starts and ends with a visible character. */
  function Trim(s: string): (r: string)
    ensures |r| <= |s|
    ensures r == [] || (!IsJsWhitespace(r[0]) && !IsJsWhitespace(r[|r| - 1]))
  {
    if s == [] then []
    else if IsJsWhitespace(s[0]) then Trim(s[1..])
    else if IsJsWhitespace(s[|s| - 1]) then Trim(s[..|s| - 1])
    else s
  }

  /** Whitespace at the front and at the back of `s[i..j]` makes up the
      whole of `s[..i]` and `s[j..]`. */
  predicate TrimmedSlice(s: string, i: int, r: string) {
    0 <= i <= i + |r| <= |s| && r == s[i..i + |r|]
    && AllWhitespace(s[..i]) && AllWhitespace(s[i + |r|..])
  }

  /** A slice of `s[1..]` trimmed on both sides is also one of `s` when
      the dropped first character is whitespace. */
  lemma TrimmedSliceFront(s: string, i: int, r: string)
    requires s != [] && IsJsWhitespace(s[0]) && TrimmedSlice(s[1..], i, r)
    ensures TrimmedSlice(s, i + 1, r)
  {
  }

  /** A slice of `s[..|s| - 1]` trimmed on both sides is also one of `s`
      when the dropped last character is whitespace. */
  lemma TrimmedSliceBack(s: string, i: int, r: string)
    requires s != [] && IsJsWhitespace(s[|s| - 1]) && TrimmedSlice(s[..|s| - 1], i, r)
    ensures TrimmedSlice(s, i, r)
  {
  }

  /** The trimmed string is a slice of the original with only whitespace cut
      away on either side. */
  lemma {:induction false} TrimIsSlice(s: string)
    ensures exists i :: TrimmedSlice(s, i, Trim(s))
  {
    var r := Trim(s);
    if s == [] {
      assert TrimmedSlice(s, 0, r);
    } else if IsJsWhitespace(s[0]) {
      TrimIsSlice(s[1..]);
      var i :| TrimmedSlice(s[1..], i, r);
      TrimmedSliceFront(s, i, r);
    } else if IsJsWhitespace(s[|s| - 1]) {
      TrimIsSlice(s[..|s| - 1]);
      var i :| TrimmedSlice(s[..|s| - 1], i, r);
      TrimmedSliceBack(s, i, r);
    } else {
      assert TrimmedSlice(s, 0, r);
    }
  }

  /** `!s.trim()`: the trimmed string is the empty, falsy string. */
  predicate IsBlank(s: string) {
    Trim(s) == []
  }

  /** A string trims to empty exactly when it consists of whitespace only. */
  lemma BlankIffAllWhitespace(s: string)
    ensures IsBlank(s) <==> AllWhitespace(s)
  {
    TrimIsSlice(s);
    var i :| TrimmedSlice(s, i, Trim(s));
    if IsBlank(s) {
      assert s == s[..i] + s[i..];
    } else {
      assert Trim(s)[0] == s[i];
    }
  }
}
