/** String facts shared by the extractor and the session reducer: the ASCII case
    folding a case-insensitive JavaScript regular expression applies to an ASCII
    pattern, and the whitespace that `String.prototype.trim` removes. */
module Text {

  /** Folds 'A'..'Z' to 'a'..'z' and leaves every other character alone. A
      non-Unicode `/i` regular expression canonicalises by upper-casing but never
      maps a non-ASCII character onto an ASCII one, so against an ASCII pattern it
      identifies exactly the characters this folding identifies. */
  function Fold(c: char): char
  {
    if 'A' <= c <= 'Z' then (c as int + 32) as char else c
  }

  /** `p` occurs in `s` at index `at`, comparing characters up to case. */
  predicate OccursAt(s: string, at: nat, p: string)
  {
    at + |p| <= |s| && forall k :: 0 <= k < |p| ==> Fold(s[at + k]) == Fold(p[k])
  }

  predicate StartsWithIgnoreCase(t: string, p: string)
  {
    OccursAt(t, 0, p)
  }

  predicate EndsWithIgnoreCase(t: string, p: string)
  {
    |p| <= |t| && OccursAt(t, |t| - |p|, p)
  }

  /** An occurrence inside a slice is an occurrence in the whole string, shifted
      by the slice's start, and conversely. */
  lemma OccursInSlice(s: string, i: nat, j: nat, k: nat, p: string)
    requires i <= j <= |s|
    requires k + |p| <= j - i
    ensures OccursAt(s[i..j], k, p) <==> OccursAt(s, i + k, p)
  {
  }

  /** Folding never produces or removes one of the punctuation characters the
      HTML delimiters are built from. */
  lemma FoldKeepsPunctuation(c: char, d: char)
    requires d == '<' || d == '/' || d == '!' || d == '>' || d == ' '
    ensures Fold(c) == d <==> c == d
  {
  }

  /** The characters JavaScript's `trim` removes: the WhiteSpace and
      LineTerminator productions of ECMAScript (tab, vertical tab, form feed,
      space, no-break space, byte order mark, every Zs space separator, line
      feed, carriage return, line and paragraph separators). */
  predicate IsJsWhitespace(c: char)
  {
    || c == '\t' || c == '\n' || c == '\U{000B}' || c == '\U{000C}' || c == '\r'
    || c == ' ' || c == '\U{00A0}' || c == '\U{1680}'
    || ('\U{2000}' <= c <= '\U{200A}')
    || c == '\U{2028}' || c == '\U{2029}' || c == '\U{202F}' || c == '\U{205F}'
    || c == '\U{3000}' || c == '\U{FEFF}'
  }

  ghost predicate AllWhitespace(s: string)
  {
    forall k :: 0 <= k < |s| ==> IsJsWhitespace(s[k])
  }

  /** The index of the first non-whitespace character at or after `i`, or
      `|s|` when there is none. */
  function SkipLeading(s: string, i: nat): (j: nat)
    requires i <= |s|
    ensures i <= j <= |s|
    ensures forall k :: i <= k < j ==> IsJsWhitespace(s[k])
    ensures j < |s| ==> !IsJsWhitespace(s[j])
    decreases |s| - i
  {
    if i < |s| && IsJsWhitespace(s[i]) then SkipLeading(s, i + 1) else i
  }

  /** The end of `s[lo..hi]` once trailing whitespace is dropped: everything
      from the result up to `hi` is whitespace, and the character before the
      result, if it lies in the range, is not. */
  function SkipTrailing(s: string, lo: nat, hi: nat): (j: nat)
    requires lo <= hi <= |s|
    ensures lo <= j <= hi
    ensures forall k :: j <= k < hi ==> IsJsWhitespace(s[k])
    ensures lo < j ==> !IsJsWhitespace(s[j - 1])
    decreases hi - lo
  {
    if lo < hi && IsJsWhitespace(s[hi - 1]) then SkipTrailing(s, lo, hi - 1) else hi
  }

  /** `String.prototype.trim`: the result is the slice of `s` left when
      leading and trailing whitespace are dropped; it has no whitespace at
      either end, and it is empty exactly when `s` is all whitespace. */
  function Trim(s: string): (r: string)
    ensures exists i, j ::
      0 <= i <= j <= |s| && r == s[i..j] && AllWhitespace(s[..i]) && AllWhitespace(s[j..])
    ensures r != [] ==> !IsJsWhitespace(r[0]) && !IsJsWhitespace(r[|r| - 1])
    ensures r == [] <==> AllWhitespace(s)
  {
    var i := SkipLeading(s, 0);
    var j := SkipTrailing(s, i, |s|);
    assert i < j ==> s[i..j][0] == s[i];
    assert AllWhitespace(s[..i]) && AllWhitespace(s[j..]) by {
      forall k | 0 <= k < |s[j..]|
        ensures s[j..][k] == s[j + k]
      {
      }
    }
    s[i..j]
  }

  /** The test `!promptText.trim()`: JavaScript treats the empty string as false. */
  predicate IsBlank(s: string)
  {
    Trim(s) == []
  }

}
