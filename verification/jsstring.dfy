/**
 The two JavaScript string operations the reset-password check relies on:
 `String.prototype.trim` and `String.prototype.toLowerCase`.

 `trim` removes leading and trailing code points of the ECMAScript WhiteSpace
 and LineTerminator productions; that set is finite and is modelled exactly.
 Strings are sequences of Unicode scalar values, so the model is exact for
 well-formed strings and does not cover strings holding lone surrogates.
 `toLowerCase` is modelled on ASCII only: `A`..`Z` map to `a`..`z` and every
 other character is left as it is.
 */
module JsString {

  /** The ECMAScript WhiteSpace and LineTerminator code points, which `trim` strips. */
  predicate IsWhiteSpace(c: char) {
    var n := c as int;
    || n == 0x09 || n == 0x0A || n == 0x0B || n == 0x0C || n == 0x0D   // TAB LF VT FF CR
    || n == 0x20 || n == 0xA0 || n == 0x1680                           // SP NBSP OGHAM
    || (0x2000 <= n <= 0x200A)                                         // EN QUAD .. HAIR SPACE
    || n == 0x2028 || n == 0x2029                                      // LS PS
    || n == 0x202F || n == 0x205F || n == 0x3000                       // NNBSP MMSP IDEOGRAPHIC
    || n == 0xFEFF                                                     // ZWNBSP (BOM)
  }

  /** Every character of `s` at an index in `lo..hi` is white space. */
  predicate WhiteSpaceIn(s: string, lo: int, hi: int)
    requires 0 <= lo <= hi <= |s|
  {
    forall k :: lo <= k < hi ==> IsWhiteSpace(s[k])
  }

  /** `s` is white space throughout. */
  predicate AllWhiteSpace(s: string) {
    WhiteSpaceIn(s, 0, |s|)
  }

  /**
   `s[i..j]` is what is left of `s` once its leading and trailing white space is
   gone: only white space lies outside it, and it neither starts nor ends with
   white space.
   */
  predicate TrimBounds(s: string, i: int, j: int) {
    && 0 <= i <= j <= |s|
    && WhiteSpaceIn(s, 0, i)
    && WhiteSpaceIn(s, j, |s|)
    && (i < j ==> !IsWhiteSpace(s[i]) && !IsWhiteSpace(s[j - 1]))
  }

  /** The specification of trimming, independent of how it is computed. */
  ghost predicate IsTrimOf(s: string, r: string) {
    exists i, j :: TrimBounds(s, i, j) && r == s[i..j]
  }

  /** `t` is `s` without its leading white space. */
  predicate LeadingTrimmed(s: string, t: string) {
    && |t| <= |s|
    && (forall k :: 0 <= k < |t| ==> t[k] == s[|s| - |t| + k])
    && WhiteSpaceIn(s, 0, |s| - |t|)
    && (t == [] || !IsWhiteSpace(t[0]))
  }

  /** `t` is `s` without its trailing white space. */
  predicate TrailingTrimmed(s: string, t: string) {
    && |t| <= |s|
    && (forall k :: 0 <= k < |t| ==> t[k] == s[k])
    && WhiteSpaceIn(s, |t|, |s|)
    && (t == [] || !IsWhiteSpace(t[|t| - 1]))
  }

  /** Drops the leading white space of `s`. */
  function TrimStart(s: string): (r: string)
    ensures LeadingTrimmed(s, r)
    decreases |s|
  {
    if |s| > 0 && IsWhiteSpace(s[0]) then
      var r := TrimStart(s[1..]);
      assert forall k :: 0 <= k < |r| ==> r[k] == s[1..][|s| - 1 - |r| + k] == s[|s| - |r| + k];
      assert forall k :: 1 <= k < |s| - |r| ==> s[k] == s[1..][k - 1];
      r
    else
      s
  }

  /** Drops the trailing white space of `s`. */
  function TrimEnd(s: string): (r: string)
    ensures TrailingTrimmed(s, r)
    decreases |s|
  {
    if |s| > 0 && IsWhiteSpace(s[|s| - 1]) then
      var r := TrimEnd(s[..|s| - 1]);
      assert forall k :: 0 <= k < |r| ==> r[k] == s[..|s| - 1][k] == s[k];
      assert forall k :: |r| <= k < |s| - 1 ==> s[k] == s[..|s| - 1][k];
      r
    else
      s
  }

  /** `s.trim()`. */
  function Trim(s: string): (r: string)
    ensures IsTrimOf(s, r)
  {
    var t := TrimStart(s);
    var r := TrimEnd(t);
    var i := |s| - |t|;
    StartThenEndBounds(s, t, r);
    assert TrimBounds(s, i, i + |r|) && r == s[i..i + |r|];
    r
  }

  /** Trimming the end of the start-trimmed string leaves exactly a trim boundary of `s`. */
  lemma StartThenEndBounds(s: string, t: string, r: string)
    requires LeadingTrimmed(s, t) && TrailingTrimmed(t, r)
    ensures TrimBounds(s, |s| - |t|, |s| - |t| + |r|)
    ensures r == s[|s| - |t|..|s| - |t| + |r|]
  {
    var i := |s| - |t|;
    forall k | i + |r| <= k < |s|
      ensures IsWhiteSpace(s[k])
    {
      assert s[k] == t[k - i];
    }
    forall k | 0 <= k < |r|
      ensures r[k] == s[i + k]
    {
      assert r[k] == t[k] == s[i + k];
    }
    assert r == s[i..i + |r|];
  }

  /** Two trim boundaries of the same string cut out the same text. */
  lemma TrimBoundsUnique(s: string, i1: int, j1: int, i2: int, j2: int)
    requires TrimBounds(s, i1, j1) && TrimBounds(s, i2, j2)
    ensures s[i1..j1] == s[i2..j2]
  {
    if i1 < j1 && i2 < j2 {
      // i1 and i2 are both the first non-white index, j1 and j2 both one past the last.
      assert i1 == i2;
      assert j1 == j2;
    } else if i1 < j1 || i2 < j2 {
      // A non-empty trim cannot sit inside a string that is white space throughout.
      assert false;
    }
  }

  /** At most one string is the trim of `s`, so `IsTrimOf` pins `Trim` down completely. */
  lemma TrimOfIsUnique(s: string, r1: string, r2: string)
    requires IsTrimOf(s, r1) && IsTrimOf(s, r2)
    ensures r1 == r2
  {
    var i1, j1 :| TrimBounds(s, i1, j1) && r1 == s[i1..j1];
    var i2, j2 :| TrimBounds(s, i2, j2) && r2 == s[i2..j2];
    TrimBoundsUnique(s, i1, j1, i2, j2);
  }

  /** `Trim` is the one function meeting the trimming specification. */
  lemma TrimIsTheTrimOf(s: string, r: string)
    ensures IsTrimOf(s, r) <==> r == Trim(s)
  {
    if IsTrimOf(s, r) {
      TrimOfIsUnique(s, r, Trim(s));
    }
  }

  /** White space added around a string disappears again under `trim`. */
  lemma TrimIgnoresPadding(pre: string, s: string, post: string)
    requires AllWhiteSpace(pre) && AllWhiteSpace(post)
    ensures Trim(pre + s + post) == Trim(s)
  {
    var r := Trim(s);
    var i, j :| TrimBounds(s, i, j) && r == s[i..j];
    var t := pre + s + post;
    PaddingKeepsTrimBounds(pre, s, post, i, j);
    assert t[|pre| + i..|pre| + j] == r;
    TrimOfIsUnique(t, Trim(t), r);
  }

  lemma PaddingKeepsTrimBounds(pre: string, s: string, post: string, i: int, j: int)
    requires AllWhiteSpace(pre) && AllWhiteSpace(post)
    requires TrimBounds(s, i, j)
    ensures TrimBounds(pre + s + post, |pre| + i, |pre| + j)
    ensures (pre + s + post)[|pre| + i..|pre| + j] == s[i..j]
  {
    var t := pre + s + post;
    forall k | 0 <= k < |pre| + i
      ensures IsWhiteSpace(t[k])
    {
      if k < |pre| { assert t[k] == pre[k]; } else { assert t[k] == s[k - |pre|]; }
    }
    forall k | |pre| + j <= k < |t|
      ensures IsWhiteSpace(t[k])
    {
      if k < |pre| + |s| { assert t[k] == s[k - |pre|]; } else { assert t[k] == post[k - |pre| - |s|]; }
    }
    assert t[|pre| + i..|pre| + j] == s[i..j];
  }

  /** A string that neither starts nor ends with white space is its own trim. */
  lemma TrimOfTrimmed(s: string)
    requires s == [] || (!IsWhiteSpace(s[0]) && !IsWhiteSpace(s[|s| - 1]))
    ensures Trim(s) == s
  {
    assert s[0..|s|] == s;
    assert TrimBounds(s, 0, |s|);
    TrimOfIsUnique(s, Trim(s), s);
  }

  /** Trimming twice is trimming once. */
  lemma TrimIdempotent(s: string)
    ensures Trim(Trim(s)) == Trim(s)
  {
    var r := Trim(s);
    var i, j :| TrimBounds(s, i, j) && r == s[i..j];
    assert r[0..|r|] == r;
    assert TrimBounds(r, 0, |r|);
    TrimOfIsUnique(r, Trim(r), r);
  }

  predicate IsAsciiUpper(c: char) {
    'A' <= c <= 'Z'
  }

  /** The lower-case counterpart of an ASCII capital; every other character is its own. */
  function LowerChar(c: char): (d: char)
    ensures !IsAsciiUpper(d)
    ensures IsAsciiUpper(c) ==> d as int == c as int + 32
    ensures !IsAsciiUpper(c) ==> d == c
  {
    if IsAsciiUpper(c) then (c as int + 32) as char else c
  }

  /** `s.toLowerCase()`, over ASCII. */
  function ToLower(s: string): (r: string)
    ensures |r| == |s|
    ensures forall k :: 0 <= k < |s| ==> r[k] == LowerChar(s[k])
  {
    seq(|s|, k requires 0 <= k < |s| => LowerChar(s[k]))
  }

  /**
   Two characters are the same up to ASCII case: equal, or one is a capital
   letter and the other is that letter's small form.
   */
  predicate SameIgnoringCase(c: char, d: char) {
    || c == d
    || (IsAsciiUpper(c) && d as int == c as int + 32)
    || (IsAsciiUpper(d) && c as int == d as int + 32)
  }

  /** The reference meaning of a case-insensitive comparison, character by character. */
  predicate EqualsIgnoringCase(a: string, b: string) {
    && |a| == |b|
    && forall k :: 0 <= k < |a| ==> SameIgnoringCase(a[k], b[k])
  }

  lemma LowerCharAgreesIffSameIgnoringCase(c: char, d: char)
    ensures LowerChar(c) == LowerChar(d) <==> SameIgnoringCase(c, d)
  {
  }

  /** Comparing lower-cased strings is exactly a case-insensitive comparison. */
  lemma ToLowerAgreesIffEqualsIgnoringCase(a: string, b: string)
    ensures ToLower(a) == ToLower(b) <==> EqualsIgnoringCase(a, b)
  {
    if ToLower(a) == ToLower(b) {
      forall k | 0 <= k < |a|
        ensures SameIgnoringCase(a[k], b[k])
      {
        assert ToLower(a)[k] == ToLower(b)[k];
        LowerCharAgreesIffSameIgnoringCase(a[k], b[k]);
      }
    }
    if EqualsIgnoringCase(a, b) {
      forall k | 0 <= k < |a|
        ensures ToLower(a)[k] == ToLower(b)[k]
      {
        LowerCharAgreesIffSameIgnoringCase(a[k], b[k]);
      }
    }
  }

  /** Lower-casing twice is lower-casing once. */
  lemma ToLowerIdempotent(s: string)
    ensures ToLower(ToLower(s)) == ToLower(s)
  {
  }

  /** Lower-casing never creates or removes white space, so the order of trim and lower-case is immaterial. */
  lemma TrimCommutesWithToLower(s: string)
    ensures ToLower(Trim(s)) == Trim(ToLower(s))
  {
    var r := Trim(s);
    var i, j :| TrimBounds(s, i, j) && r == s[i..j];
    var l := ToLower(s);
    ToLowerKeepsTrimBounds(s, i, j);
    TrimOfIsUnique(l, Trim(l), ToLower(r));
  }

  lemma ToLowerKeepsTrimBounds(s: string, i: int, j: int)
    requires TrimBounds(s, i, j)
    ensures TrimBounds(ToLower(s), i, j)
    ensures ToLower(s)[i..j] == ToLower(s[i..j])
  {
    var l := ToLower(s);
    forall k | 0 <= k < |s|
      ensures IsWhiteSpace(l[k]) <==> IsWhiteSpace(s[k])
    {
      LowerCharKeepsWhiteSpace(s[k]);
    }
  }

  lemma LowerCharKeepsWhiteSpace(c: char)
    ensures IsWhiteSpace(LowerChar(c)) <==> IsWhiteSpace(c)
  {
  }
}
