/**
 Trimming of the text a user submits. A list name and a todo body are
 trimmed of surrounding white space before they are checked.
 */
module Text {

  /** The characters trimming removes: ASCII white space and NUL. */
  predicate IsSpace(c: char) {
    c == ' ' || c == '\t' || c == '\n' || c == '\U{000B}' || c == '\U{000C}' || c == '\r' || c == '\0'
  }

  /** The first position at or after i that does not hold white space (|s| if none). */
  function SkipSpace(s: string, i: nat): (k: nat)
    requires i <= |s|
    ensures i <= k <= |s|
    ensures forall j :: i <= j < k ==> IsSpace(s[j])
    ensures k == |s| || !IsSpace(s[k])
    decreases |s| - i
  {
    if i < |s| && IsSpace(s[i]) then SkipSpace(s, i + 1) else i
  }

  /**
   The end of s[lo..hi] once the white space at its end is dropped: every
   character from there up to hi is white space, the one before it is not.
   */
  function SkipSpaceBack(s: string, lo: nat, hi: nat): (k: nat)
    requires lo <= hi <= |s|
    ensures lo <= k <= hi
    ensures forall j :: k <= j < hi ==> IsSpace(s[j])
    ensures k == lo || !IsSpace(s[k - 1])
  {
    if lo < hi && IsSpace(s[hi - 1]) then SkipSpaceBack(s, lo, hi - 1) else hi
  }

  /** Drops the white space at both ends of s: first at the front, then at the end. */
  function Strip(s: string): (r: string)
    ensures |r| <= |s|
    ensures r == [] || (!IsSpace(r[0]) && !IsSpace(r[|r| - 1]))
  {
    var lo := SkipSpace(s, 0);
    s[lo..SkipSpaceBack(s, lo, |s|)]
  }

  /**
   r is the stretch of s that begins at position lo, and every character of s
   before or after that stretch is white space.
   */
  ghost predicate TrimmedAt(s: string, r: string, lo: nat) {
    && lo + |r| <= |s|
    && r == s[lo..lo + |r|]
    && (forall i :: 0 <= i < lo ==> IsSpace(s[i]))
    && (forall i :: lo + |r| <= i < |s| ==> IsSpace(s[i]))
  }

  /**
   Strip(s) is a stretch of s, and everything it cuts off on either side
   is white space.
   */
  lemma StripCutsOnlySpace(s: string)
    ensures exists lo :: TrimmedAt(s, Strip(s), lo)
  {
    var lo := SkipSpace(s, 0);
    assert TrimmedAt(s, Strip(s), lo);
  }

  /** Text with no white space at either end is left as it is. */
  lemma StripKeepsTrimmed(s: string)
    requires s == [] || (!IsSpace(s[0]) && !IsSpace(s[|s| - 1]))
    ensures Strip(s) == s
  {
  }

  /** Skipping white space in [c] + s finds the position one past the one found in s. */
  lemma {:induction false} SkipSpaceShift(c: char, s: string, i: nat)
    requires i <= |s|
    ensures SkipSpace([c] + s, i + 1) == SkipSpace(s, i) + 1
    decreases |s| - i
  {
    assert ([c] + s)[i + 1..] == s[i..];
    if i < |s| && IsSpace(s[i]) {
      SkipSpaceShift(c, s, i + 1);
    }
  }

  /** Cutting white space off the end of a stretch does not depend on what comes before it. */
  lemma {:induction false} SkipSpaceBackShift(c: char, s: string, lo: nat, hi: nat)
    requires lo <= hi <= |s|
    ensures SkipSpaceBack([c] + s, lo + 1, hi + 1) == SkipSpaceBack(s, lo, hi) + 1
    decreases hi
  {
    if lo < hi && IsSpace(s[hi - 1]) {
      assert ([c] + s)[hi] == s[hi - 1];
      SkipSpaceBackShift(c, s, lo, hi - 1);
    } else if lo < hi {
      assert ([c] + s)[hi] == s[hi - 1];
    }
  }

  /** White space in front of a text does not change what trimming leaves. */
  lemma StripSkipsLeadingSpace(c: char, s: string)
    requires IsSpace(c)
    ensures Strip([c] + s) == Strip(s)
  {
    var t := [c] + s;
    var lo := SkipSpace(s, 0);
    SkipSpaceShift(c, s, 0);
    assert SkipSpace(t, 0) == lo + 1;
    SkipSpaceBackShift(c, s, lo, |s|);
    var hi := SkipSpaceBack(s, lo, |s|);
    assert t[lo + 1..hi + 1] == s[lo..hi];
  }

  /** Trimming twice is the same as trimming once. */
  lemma StripIdempotent(s: string)
    ensures Strip(Strip(s)) == Strip(s)
  {
  }
}
