/**
 * The string primitives the checker relies on: Python's `str.strip()`,
 * `str.isdigit()` and the `in` substring test.
 */
module Text {

  /** Python's `str.isspace` for one character: the characters `str.strip()`
      removes when called without arguments. */
  predicate IsSpace(c: char) {
    var n := c as int;
    || (0x09 <= n <= 0x0D) || (0x1C <= n <= 0x20)
    || n == 0x85 || n == 0xA0 || n == 0x1680
    || (0x2000 <= n <= 0x200A)
    || n == 0x2028 || n == 0x2029 || n == 0x202F || n == 0x205F || n == 0x3000
  }

  /** An ASCII decimal digit. */
  predicate IsDigit(c: char) {
    '0' <= c <= '9'
  }

  /** Python's `s.isdigit()`: non-empty, and every character a digit. */
  predicate AllDigits(s: string) {
    |s| > 0 && forall k :: 0 <= k < |s| ==> IsDigit(s[k])
  }

  /** Every character of `s` from index `lo` up to (not including) `hi` is
      whitespace. */
  predicate SpacesBetween(s: string, lo: nat, hi: nat)
    requires hi <= |s|
  {
    forall k | lo <= k < hi :: IsSpace(s[k])
  }

  /** The index of the first non-whitespace character of `s` at or after
      `i`, or `|s|` if there is none. */
  function TextStart(s: string, i: nat): (j: nat)
    requires i <= |s|
    ensures i <= j <= |s| && SpacesBetween(s, i, j)
    ensures j == |s| || !IsSpace(s[j])
    decreases |s| - i
  {
    if i < |s| && IsSpace(s[i]) then TextStart(s, i + 1) else i
  }

  /** The index just past the last non-whitespace character of `s` before
      `j`, looking no further back than `lo`. */
  function TextEnd(s: string, lo: nat, j: nat): (e: nat)
    requires lo <= j <= |s|
    ensures lo <= e <= j && SpacesBetween(s, e, j)
    ensures e == lo || !IsSpace(s[e - 1])
    decreases j
  {
    if j > lo && IsSpace(s[j - 1]) then TextEnd(s, lo, j - 1) else j
  }

  /** `r` is the block of `s` starting at `i` once the whitespace around it is
      dropped: everything before and after it is whitespace, and it neither
      starts nor ends with whitespace. */
  predicate StrippedAt(s: string, r: string, i: nat) {
    && i + |r| <= |s|
    && s[i..i + |r|] == r
    && SpacesBetween(s, 0, i)
    && SpacesBetween(s, i + |r|, |s|)
    && (r == [] || (!IsSpace(r[0]) && !IsSpace(r[|r| - 1])))
  }

  /** `r` is what stripping `s` should give. */
  predicate IsStripOf(s: string, r: string) {
    exists i: nat | i <= |s| :: StrippedAt(s, r, i)
  }

  /** Python's `s.strip()`. */
  function Strip(s: string): (r: string)
    ensures IsStripOf(s, r)
  {
    var lo := TextStart(s, 0);
    var hi := TextEnd(s, lo, |s|);
    assert StrippedAt(s, s[lo..hi], lo);
    s[lo..hi]
  }

  /** Only one string satisfies the description of stripping, so `Strip` is
      fully determined by `IsStripOf`. */
  lemma StripOfUnique(s: string, r1: string, r2: string)
    requires IsStripOf(s, r1) && IsStripOf(s, r2)
    ensures r1 == r2
  {
    var i1: nat :| StrippedAt(s, r1, i1);
    var i2: nat :| StrippedAt(s, r2, i2);
    assert StrippedAt(s, r1, i1) && StrippedAt(s, r2, i2);
    if r1 != [] && r2 != [] {
      assert s[i1..i1 + |r1|][0] == s[i1] && s[i2..i2 + |r2|][0] == s[i2];
      var e1, e2 := i1 + |r1|, i2 + |r2|;
      assert s[e1 - 1] == r1[|r1| - 1] && s[e2 - 1] == r2[|r2| - 1];
    }
  }

  /** Stripping twice is stripping once. */
  lemma StripIdempotent(s: string)
    ensures Strip(Strip(s)) == Strip(s)
  {
    var r := Strip(s);
    assert StrippedAt(r, r, 0) by {
      assert r[0..|r|] == r && r[..0] == [] && r[|r|..] == [];
    }
    StripOfUnique(r, Strip(r), r);
  }

  /** A string that neither starts nor ends with whitespace is its own strip. */
  lemma StripUnpadded(s: string)
    requires s == [] || (!IsSpace(s[0]) && !IsSpace(s[|s| - 1]))
    ensures Strip(s) == s
  {
    assert StrippedAt(s, s, 0) by {
      assert s[0..|s|] == s && s[..0] == [] && s[|s|..] == [];
    }
    StripOfUnique(s, Strip(s), s);
  }

  /** Whitespace around a string is dropped by stripping. */
  lemma StripPadded(pre: string, s: string, post: string)
    requires SpacesBetween(pre, 0, |pre|) && SpacesBetween(post, 0, |post|)
    ensures Strip(pre + s + post) == Strip(s)
  {
    var r := Strip(s);
    var i: nat :| i <= |s| && StrippedAt(s, r, i);
    PaddingKeepsStripped(pre, s, post, r, i);
    StripOfUnique(pre + s + post, Strip(pre + s + post), r);
  }

  /** Padding with whitespace on both sides moves the stripped block along. */
  lemma PaddingKeepsStripped(pre: string, s: string, post: string, r: string, i: nat)
    requires SpacesBetween(pre, 0, |pre|) && SpacesBetween(post, 0, |post|)
    requires StrippedAt(s, r, i)
    ensures StrippedAt(pre + s + post, r, |pre| + i)
  {
    var t := pre + s + post;
    var j := |pre| + i;
    assert t[j..j + |r|] == s[i..i + |r|];
    forall k | 0 <= k < j ensures IsSpace(t[k]) {
      if k < |pre| { assert t[k] == pre[k]; } else { assert t[k] == s[k - |pre|]; }
    }
    forall k | j + |r| <= k < |t| ensures IsSpace(t[k]) {
      if k < |pre| + |s| { assert t[k] == s[k - |pre|]; } else { assert t[k] == post[k - |pre| - |s|]; }
    }
  }

  /** `needle` occurs in `text` starting at index `i`. */
  predicate OccursAt(text: string, needle: string, i: nat) {
    i + |needle| <= |text| && text[i..i + |needle|] == needle
  }

  /** Python's `needle in text`. */
  predicate Contains(text: string, needle: string)
    decreases |text|
  {
    needle <= text || (|text| > 0 && Contains(text[1..], needle))
  }

  /** `Contains` finds exactly the occurrences `OccursAt` describes. */
  lemma {:induction false} ContainsIffOccurs(text: string, needle: string)
    ensures Contains(text, needle) <==> exists i: nat :: OccursAt(text, needle, i)
    decreases |text|
  {
    if needle <= text {
      assert OccursAt(text, needle, 0);
    } else if |text| > 0 {
      ContainsIffOccurs(text[1..], needle);
      if Contains(text[1..], needle) {
        var i: nat :| OccursAt(text[1..], needle, i);
        assert text[1..][i..i + |needle|] == text[i + 1..i + 1 + |needle|];
        assert OccursAt(text, needle, i + 1);
      }
      if i: nat :| OccursAt(text, needle, i) {
        assert i != 0;
        assert text[1..][i - 1..i - 1 + |needle|] == text[i..i + |needle|];
        assert OccursAt(text[1..], needle, i - 1);
      }
    }
  }
}
