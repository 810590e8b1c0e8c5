/** The two string operations the router applies to every message: Python's
    `str.strip()` and `str.lower()`, restricted to ASCII case folding and to the
    characters Python counts as whitespace below U+0080. */
module Text {

  /** Python's `str.isspace()` on code points below 128: space, the five
      controls \t \n \v \f \r, and the four separators U+001C..U+001F. */
  predicate IsSpace(c: char) {
    c == ' ' || '\t' <= c <= '\r' || '\U{1C}' <= c <= '\U{1F}'
  }

  /** Every character of `s` in [from, to) is whitespace. */
  predicate SpaceBetween(s: string, from: nat, to: nat)
    requires from <= to <= |s|
  {
    forall i {:trigger IsSpace(s[i])} :: from <= i < to ==> IsSpace(s[i])
  }

  predicate AllSpace(s: string) {
    SpaceBetween(s, 0, |s|)
  }

  /** A string with no whitespace at either end. */
  predicate Trimmed(s: string) {
    s == [] || (!IsSpace(s[0]) && !IsSpace(s[|s| - 1]))
  }

  /** ASCII lowering: only 'A'..'Z' change. */
  function LowerChar(c: char): (d: char)
    ensures IsSpace(d) <==> IsSpace(c)
    ensures 'A' <= c <= 'Z' ==> 'a' <= d <= 'z' && d as int - c as int == 32
    ensures !('A' <= c <= 'Z') ==> d == c
  {
    if 'A' <= c <= 'Z' then (c as int + 32) as char else c
  }

  /** `s.lower()`: lowers every character and keeps the length, so an index
      into the lowered copy is an index into the original. */
  function Lower(s: string): (r: string)
    ensures |r| == |s|
    ensures forall i {:trigger r[i]} :: 0 <= i < |s| ==> r[i] == LowerChar(s[i])
  {
    seq(|s|, i requires 0 <= i < |s| => LowerChar(s[i]))
  }

  /** The index of the first non-whitespace character at or after `from`,
      or |s| when there is none. */
  function SkipSpace(s: string, from: nat): (lo: nat)
    requires from <= |s|
    ensures from <= lo <= |s| && SpaceBetween(s, from, lo)
    ensures lo < |s| ==> !IsSpace(s[lo])
    decreases |s| - from
  {
    if from < |s| && IsSpace(s[from]) then SkipSpace(s, from + 1) else from
  }

  /** One past the last non-whitespace character before `to`, or 0 when
      there is none. */
  function SkipSpaceBack(s: string, to: nat): (hi: nat)
    requires to <= |s|
    ensures hi <= to && SpaceBetween(s, hi, to)
    ensures 0 < hi ==> !IsSpace(s[hi - 1])
  {
    if 0 < to && IsSpace(s[to - 1]) then SkipSpaceBack(s, to - 1) else to
  }

  /** `s.strip()`: the part of `s` left between its leading and its trailing
      whitespace (empty when `s` is all whitespace). */
  function Strip(s: string): (r: string)
    ensures Trimmed(r) && |r| <= |s|
  {
    var lo := SkipSpace(s, 0);
    var hi := SkipSpaceBack(s, |s|);
    if lo < hi then s[lo..hi] else []
  }

  /** Strip gives the only trimmed slice of `s` that has only whitespace
      around it: this characterises `str.strip()` without saying how it
      scans. */
  lemma StripUnique(s: string, lo: nat, hi: nat)
    requires lo <= hi <= |s|
    requires SpaceBetween(s, 0, lo) && SpaceBetween(s, hi, |s|) && Trimmed(s[lo..hi])
    ensures Strip(s) == s[lo..hi]
  {
    var lo', hi' := SkipSpace(s, 0), SkipSpaceBack(s, |s|);
    if lo < hi {
      assert !IsSpace(s[lo]) && !IsSpace(s[hi - 1]);
      assert lo' == lo;
      assert hi' == hi;
    } else {
      assert lo' == |s|;
    }
  }

  /** The slice that Strip returns, and the whitespace around it. */
  lemma StripBounds(s: string) returns (lo: nat)
    ensures lo + |Strip(s)| <= |s| && Strip(s) == s[lo..lo + |Strip(s)|]
    ensures SpaceBetween(s, 0, lo) && SpaceBetween(s, lo + |Strip(s)|, |s|)
  {
    var lo', hi' := SkipSpace(s, 0), SkipSpaceBack(s, |s|);
    if lo' < hi' {
      lo := lo';
    } else {
      lo := |s|;
    }
  }

  /** Stripping twice is stripping once. */
  lemma StripIdempotent(s: string)
    ensures Strip(Strip(s)) == Strip(s)
  {
    var r := Strip(s);
    assert r[0..|r|] == r;
    StripUnique(r, 0, |r|);
  }

  /** Whitespace added around a text does not change what strip returns. */
  lemma StripIgnoresPadding(before: string, s: string, after: string)
    requires AllSpace(before) && AllSpace(after)
    ensures Strip(before + s + after) == Strip(s)
  {
    var r := Strip(s);
    var lo := StripBounds(s);
    var t := before + s + after;
    var b := |before|;
    assert t[b + lo..b + lo + |r|] == r;
    assert SpaceBetween(t, 0, b + lo) by {
      forall i | 0 <= i < b + lo ensures IsSpace(t[i]) {
        if i < b { assert t[i] == before[i]; } else { assert t[i] == s[i - b]; }
      }
    }
    assert SpaceBetween(t, b + lo + |r|, |t|) by {
      forall i | b + lo + |r| <= i < |t| ensures IsSpace(t[i]) {
        if i < b + |s| { assert t[i] == s[i - b]; } else { assert t[i] == after[i - b - |s|]; }
      }
    }
    StripUnique(t, b + lo, b + lo + |r|);
  }

  /** Lowering and stripping commute, because lowering maps whitespace to
      whitespace and everything else to non-whitespace. */
  lemma StripLowerCommute(s: string)
    ensures Strip(Lower(s)) == Lower(Strip(s))
  {
    var r := Strip(s);
    var lo := StripBounds(s);
    var l := Lower(s);
    assert l[lo..lo + |r|] == Lower(r);
    StripUnique(l, lo, lo + |r|);
  }

  /** Lowering twice is lowering once. */
  lemma LowerIdempotent(s: string)
    ensures Lower(Lower(s)) == Lower(s)
  {
  }

  /** Lowering a concatenation lowers each part. */
  lemma LowerAppend(a: string, b: string)
    ensures Lower(a + b) == Lower(a) + Lower(b)
  {
  }
}
