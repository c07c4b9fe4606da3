/** The string operations the search filter relies on: `String.prototype.trim` and
    `String.prototype.includes`. Case mapping stays abstract (see TaskView.HostStrings). */
module Text {

  /** The code points `trim` removes: ECMAScript WhiteSpace (tab, vertical tab, form feed,
      space, no-break space, zero-width no-break space and the Unicode space separators)
      and LineTerminator (line feed, carriage return, line and paragraph separators). */
  predicate IsWhitespace(c: char) {
    || c == '\t' || c == '\n' || c == '\U{000B}' || c == '\U{000C}' || c == '\r' || c == ' '
    || c == '\U{00A0}' || c == '\U{1680}' || ('\U{2000}' <= c <= '\U{200A}')
    || c == '\U{2028}' || c == '\U{2029}' || c == '\U{202F}' || c == '\U{205F}'
    || c == '\U{3000}' || c == '\U{FEFF}'
  }

  predicate AllWhitespace(s: string) {
    forall k :: 0 <= k < |s| ==> IsWhitespace(s[k])
  }

  /** `needle` occurs in `hay` as a contiguous run (`hay.includes(needle)`). */
  predicate Contains(hay: string, needle: string) {
    exists i | 0 <= i <= |hay| - |needle| :: OccursAt(hay, needle, i)
  }

  /** `needle` occurs in `hay` starting at index `i`. */
  predicate OccursAt(hay: string, needle: string, i: int) {
    0 <= i <= |hay| - |needle| && hay[i..i + |needle|] == needle
  }

  /** Drops leading whitespace. */
  function TrimStart(s: string): (r: string)
    ensures |r| <= |s| && r == s[|s| - |r|..]
    ensures AllWhitespace(s[..|s| - |r|])
    ensures |r| > 0 ==> !IsWhitespace(r[0])
    decreases |s|
  {
    if |s| > 0 && IsWhitespace(s[0]) then TrimStart(s[1..]) else s
  }

  /** Drops trailing whitespace. */
  function TrimEnd(s: string): (r: string)
    ensures |r| <= |s| && r == s[..|r|]
    ensures AllWhitespace(s[|r|..])
    ensures |r| > 0 ==> !IsWhitespace(r[|r| - 1])
    decreases |s|
  {
    if |s| > 0 && IsWhitespace(s[|s| - 1]) then TrimEnd(s[..|s| - 1]) else s
  }

  /** `String.prototype.trim`: the longest run of `s` that neither starts nor ends with whitespace,
      obtained by removing only whitespace from both ends. */
  function Trim(s: string): (r: string)
    ensures Contains(s, r)
    ensures exists i | 0 <= i <= |s| - |r| :: Stripped(s, r, i)
    ensures |r| > 0 ==> !IsWhitespace(r[0]) && !IsWhitespace(r[|r| - 1])
    ensures |r| == 0 <==> AllWhitespace(s)
  {
    TrimIsRun(s);
    TrimEmptyIff(s);
    TrimEnd(TrimStart(s))
  }

  /** `r` is what is left of `s` after removing only whitespace before index `i` and after the
      run of `r` that starts there. */
  predicate Stripped(s: string, r: string, i: int) {
    OccursAt(s, r, i) && AllWhitespace(s[..i]) && AllWhitespace(s[i + |r|..])
  }

  /** Trimming both ends removes only whitespace, from the front and from the back. */
  lemma TrimIsRun(s: string)
    ensures Contains(s, TrimEnd(TrimStart(s)))
    ensures Stripped(s, TrimEnd(TrimStart(s)), |s| - |TrimStart(s)|)
  {
    var t := TrimStart(s);
    var r := TrimEnd(t);
    var i := |s| - |t|;
    assert s[i..i + |r|] == t[..|r|];
    assert s[i + |r|..] == t[|r|..];
    assert OccursAt(s, r, i);
  }

  /** `trim` is determined by its contract: any run of `s` obtained by removing only whitespace
      from both ends, and neither starting nor ending with whitespace, is `Trim(s)`. */
  lemma {:induction false} TrimUnique(s: string, r: string, i: int)
    requires 0 <= i <= |s| - |r| && Stripped(s, r, i)
    requires |r| > 0 ==> !IsWhitespace(r[0]) && !IsWhitespace(r[|r| - 1])
    ensures r == Trim(s)
  {
    var t := Trim(s);
    var j :| 0 <= j <= |s| - |t| && Stripped(s, t, j);
    StrippedRunsAgree(s, r, i, t, j);
  }

  /** Two stripped runs of `s` without whitespace at their ends are equal, given that the second
      is empty exactly when `s` is all whitespace. */
  lemma StrippedRunsAgree(s: string, r: string, i: int, t: string, j: int)
    requires 0 <= i <= |s| - |r| && Stripped(s, r, i)
    requires |r| > 0 ==> !IsWhitespace(r[0]) && !IsWhitespace(r[|r| - 1])
    requires 0 <= j <= |s| - |t| && Stripped(s, t, j)
    requires |t| > 0 ==> !IsWhitespace(t[0]) && !IsWhitespace(t[|t| - 1])
    requires |t| == 0 <==> AllWhitespace(s)
    ensures r == t
  {
    if |r| == 0 {
      assert s == s[..i] + s[i..];
      WhitespaceConcat(s[..i], s[i..]);
    } else {
      assert s[i] == r[0];
      SameStart(s, r, i, t, j);
      SameEnd(s, r, i, t, j);
    }
  }

  /** Two stripped runs that start with a non-whitespace character start at the same index. */
  lemma SameStart(s: string, r: string, i: int, t: string, j: int)
    requires 0 <= i <= |s| - |r| && Stripped(s, r, i) && |r| > 0 && !IsWhitespace(r[0])
    requires 0 <= j <= |s| - |t| && Stripped(s, t, j) && |t| > 0 && !IsWhitespace(t[0])
    ensures i == j
  {
    assert forall k | 0 <= k < i :: IsWhitespace(s[k]) by {
      forall k | 0 <= k < i ensures IsWhitespace(s[k]) { assert s[..i][k] == s[k]; }
    }
    assert forall k | 0 <= k < j :: IsWhitespace(s[k]) by {
      forall k | 0 <= k < j ensures IsWhitespace(s[k]) { assert s[..j][k] == s[k]; }
    }
    assert s[i] == r[0] && s[j] == t[0];
  }

  /** Two stripped runs that end with a non-whitespace character end at the same index. */
  lemma SameEnd(s: string, r: string, i: int, t: string, j: int)
    requires 0 <= i <= |s| - |r| && Stripped(s, r, i) && |r| > 0 && !IsWhitespace(r[|r| - 1])
    requires 0 <= j <= |s| - |t| && Stripped(s, t, j) && |t| > 0 && !IsWhitespace(t[|t| - 1])
    ensures i + |r| == j + |t|
  {
    assert forall k | i + |r| <= k < |s| :: IsWhitespace(s[k]) by {
      forall k | i + |r| <= k < |s| ensures IsWhitespace(s[k]) { assert s[i + |r|..][k - i - |r|] == s[k]; }
    }
    assert forall k | j + |t| <= k < |s| :: IsWhitespace(s[k]) by {
      forall k | j + |t| <= k < |s| ensures IsWhitespace(s[k]) { assert s[j + |t|..][k - j - |t|] == s[k]; }
    }
    assert s[i + |r| - 1] == r[|r| - 1] && s[j + |t| - 1] == t[|t| - 1];
  }

  /** Trimming both ends leaves nothing exactly when `s` is all whitespace. */
  lemma TrimEmptyIff(s: string)
    ensures |TrimEnd(TrimStart(s))| == 0 <==> AllWhitespace(s)
  {
    var t := TrimStart(s);
    var r := TrimEnd(t);
    var i := |s| - |t|;
    if |r| == 0 {
      assert t[|r|..] == t;
      assert s == s[..i] + t;
      WhitespaceConcat(s[..i], t);
    }
  }

  lemma WhitespaceConcat(a: string, b: string)
    requires AllWhitespace(a) && AllWhitespace(b)
    ensures AllWhitespace(a + b)
  {
  }

  /** Every string contains the empty string. */
  lemma ContainsEmpty(hay: string)
    ensures Contains(hay, "")
  {
    assert OccursAt(hay, "", 0);
  }
}
