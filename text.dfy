/** Character classes and string trimming as the page's script relies on them:
    the `\s` class of its e-mail pattern and `String.prototype.trim`. Both use the
    same set of characters, ECMAScript's WhiteSpace and LineTerminator. */
module Text {

  /** ECMAScript WhiteSpace (tab, vertical tab, form feed, space, no-break space,
      the byte order mark and the other Zs space separators) and LineTerminator
      (line feed, carriage return, line and paragraph separators). */
  predicate IsSpace(c: char) {
    || c == '\t' || c == '\n' || c == '\U{0B}' || c == '\U{0C}' || c == '\r' || c == ' '
    || c == '\U{A0}' || c == '\U{1680}'
    || ('\U{2000}' <= c <= '\U{200A}')
    || c == '\U{2028}' || c == '\U{2029}' || c == '\U{202F}' || c == '\U{205F}'
    || c == '\U{3000}' || c == '\U{FEFF}'
  }

  /** Every character of `s` is white space (vacuously true of ""). */
  predicate IsBlank(s: string) {
    forall k :: 0 <= k < |s| ==> IsSpace(s[k])
  }

  /** The first index at or after `i` that holds a non-space character, or `|s|`. */
  function TextStart(s: string, i: nat): (j: nat)
    requires i <= |s|
    ensures i <= j <= |s|
    ensures forall k :: i <= k < j ==> IsSpace(s[k])
    ensures j < |s| ==> !IsSpace(s[j])
    decreases |s| - i
  {
    if i < |s| && IsSpace(s[i]) then TextStart(s, i + 1) else i
  }

  /** The end of the text in `s[lo..hi]`: the smallest `j >= lo` such that
      `s[j..hi]` is all white space. */
  function TextEnd(s: string, lo: nat, hi: nat): (j: nat)
    requires lo <= hi <= |s|
    ensures lo <= j <= hi
    ensures forall k :: j <= k < hi ==> IsSpace(s[k])
    ensures lo < j ==> !IsSpace(s[j - 1])
    decreases hi - lo
  {
    if lo < hi && IsSpace(s[hi - 1]) then TextEnd(s, lo, hi - 1) else hi
  }

  /** `String.prototype.trim`: `s` without the white space at both ends. */
  function Trim(s: string): (r: string)
  {
    var i := TextStart(s, 0);
    s[i..TextEnd(s, i, |s|)]
  }

  /** What trimming promises: the result is a contiguous piece of the input,
      everything cut off on either side is white space, and the result neither
      starts nor ends with white space. */
  lemma TrimCutsOnlySpace(s: string)
    ensures exists i, j {:trigger s[i..j]} ::
              (0 <= i <= j <= |s| && Trim(s) == s[i..j] && IsBlank(s[..i]) && IsBlank(s[j..]))
    ensures Trim(s) != [] ==> !IsSpace(Trim(s)[0]) && !IsSpace(Trim(s)[|Trim(s)| - 1])
  {
    var i := TextStart(s, 0);
    var j := TextEnd(s, i, |s|);
    assert Trim(s) == s[i..j] && IsBlank(s[..i]) && IsBlank(s[j..]);
  }

  /** A field is empty after trimming exactly when it held only white space. */
  lemma TrimEmptyIffBlank(s: string)
    ensures Trim(s) == [] <==> IsBlank(s)
  {
    var i := TextStart(s, 0);
    var j := TextEnd(s, i, |s|);
    if Trim(s) == [] {
      assert i == |s|;
    } else {
      assert !IsSpace(s[i]);
    }
  }

  /** Trimming twice is trimming once. */
  lemma TrimIdempotent(s: string)
    ensures Trim(Trim(s)) == Trim(s)
  {
    var t := Trim(s);
    if t != [] {
      var i := TextStart(s, 0);
      var j := TextEnd(s, i, |s|);
      assert t[0] == s[i] && t[|t| - 1] == s[j - 1];
      assert TextStart(t, 0) == 0;
      assert TextEnd(t, 0, |t|) == |t|;
      assert t[0..|t|] == t;
    }
  }
}
