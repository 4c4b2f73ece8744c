/**
 * Python's character classes and the `str` methods the extractors use: `strip()`,
 * `replace(old, new)` and `int(...)` of a digit string. `Join` is `", ".join(...)`, the
 * reference definition against which the canonical small-passive string is stated.
 */
module Text {

  /** `str.isspace()`, which is also the set `\s` and `strip()` work with. */
  predicate IsSpace(c: char)
  {
    var n := c as int;
    (9 <= n <= 13) || (28 <= n <= 32) || n == 0x85 || n == 0xA0 || n == 0x1680
    || (0x2000 <= n <= 0x200A) || n == 0x2028 || n == 0x2029 || n == 0x202F
    || n == 0x205F || n == 0x3000
  }

  /**
   * `\w` for a `str` pattern: `_` or a character for which `str.isalnum()` holds.
   * Exact for the characters up to U+00FF; characters above U+00FF count as non-word.
   */
  predicate IsWordChar(c: char)
  {
    var n := c as int;
    ('0' <= c <= '9') || ('A' <= c <= 'Z') || ('a' <= c <= 'z') || c == '_'
    || n == 0xAA || n == 0xB2 || n == 0xB3 || n == 0xB5 || n == 0xB9 || n == 0xBA
    || (0xBC <= n <= 0xBE) || (0xC0 <= n <= 0xD6) || (0xD8 <= n <= 0xF6) || (0xF8 <= n <= 0xFF)
  }

  /** `\d` for a `str` pattern, restricted to `0`-`9`: Python also accepts the other Unicode decimal digits. */
  predicate IsDigit(c: char)
  {
    '0' <= c <= '9'
  }

  lemma DigitIsWordChar(c: char)
    requires IsDigit(c)
    ensures IsWordChar(c) && !IsSpace(c)
  {
  }

  lemma WordCharIsNotSpace(c: char)
    requires IsWordChar(c)
    ensures !IsSpace(c)
  {
  }

  predicate AllSpace(w: string)
  {
    forall k :: 0 <= k < |w| ==> IsSpace(w[k])
  }

  /** `s.lstrip()`: what is left after the longest all-whitespace prefix. */
  function LStrip(s: string): (r: string)
    ensures |r| <= |s| && r == s[|s| - |r|..]
    ensures AllSpace(s[..|s| - |r|])
    ensures r == [] || !IsSpace(r[0])
  {
    if s != [] && IsSpace(s[0]) then LStrip(s[1..]) else s
  }

  /** `s.rstrip()`: what is left before the longest all-whitespace suffix. */
  function RStrip(s: string): (r: string)
    ensures |r| <= |s| && r == s[..|r|]
    ensures AllSpace(s[|r|..])
    ensures r == [] || !IsSpace(r[|r| - 1])
  {
    if s != [] && IsSpace(s[|s| - 1]) then RStrip(s[..|s| - 1])
    else assert s[..|s|] == s && s[|s|..] == []; s
  }

  /** `s.strip()`: `s` without its leading and trailing whitespace. */
  function Strip(s: string): (r: string)
    ensures |r| <= |s|
    ensures exists i :: StrippedAt(s, r, i)
    ensures r == [] || (!IsSpace(r[0]) && !IsSpace(r[|r| - 1]))
  {
    var l := LStrip(s);
    var r := RStrip(l);
    StripWitness(s, l, r);
    r
  }

  /** `r` sits at offset `i` of `s` with only whitespace around it. */
  predicate StrippedAt(s: string, r: string, i: int)
  {
    0 <= i <= |s| - |r| && s[i..i + |r|] == r && AllSpace(s[..i]) && AllSpace(s[i + |r|..])
  }

  lemma StripWitness(s: string, l: string, r: string)
    requires |l| <= |s| && l == s[|s| - |l|..] && AllSpace(s[..|s| - |l|])
    requires |r| <= |l| && r == l[..|r|] && AllSpace(l[|r|..])
    ensures StrippedAt(s, r, |s| - |l|)
  {
    var i := |s| - |l|;
    assert s[i..i + |r|] == l[..|r|];
    assert s[i + |r|..] == l[|r|..];
  }

  /** Stripping a string that starts and ends with a non-space character leaves it alone. */
  lemma StripNoSpaceEnds(s: string)
    requires s != [] && !IsSpace(s[0]) && !IsSpace(s[|s| - 1])
    ensures Strip(s) == s
  {
  }

  /** `rstrip()` of `w + tail`, where `w` ends with non-space and `tail` is all space. */
  lemma {:induction false} RStripSpaceTail(w: string, tail: string)
    requires AllSpace(tail)
    requires w == [] || !IsSpace(w[|w| - 1])
    ensures RStrip(w + tail) == w
    decreases |tail|
  {
    if tail == [] {
      assert w + tail == w;
    } else {
      var t' := tail[..|tail| - 1];
      assert (w + tail)[..|w + tail| - 1] == w + t';
      RStripSpaceTail(w, t');
    }
  }

  /** Stripping `w + tail`, where `w` starts and ends with non-space and `tail` is all space. */
  lemma StripSpaceTail(w: string, tail: string)
    requires w != [] && !IsSpace(w[0]) && !IsSpace(w[|w| - 1])
    requires AllSpace(tail)
    ensures Strip(w + tail) == w
  {
    assert (w + tail)[0] == w[0];
    assert LStrip(w + tail) == w + tail;
    RStripSpaceTail(w, tail);
  }

  /** An occurrence of `pat` starts at index `k` of `s`. */
  predicate OccursAt(s: string, pat: string, k: int)
  {
    0 <= k && k + |pat| <= |s| && s[k..k + |pat|] == pat
  }

  /** A character of an occurrence of `pat` at `k`. */
  lemma OccursChar(s: string, pat: string, k: int, j: nat)
    requires j < |pat|
    ensures OccursAt(s, pat, k) ==> k + j < |s| && s[k + j] == pat[j]
  {
    if OccursAt(s, pat, k) {
      assert s[k..k + |pat|][j] == s[k + j];
    }
  }

  /**
   * `s.replace(pat, rep)` for a non-empty `pat`: occurrences are found from the left
   * and do not overlap.
   */
  function ReplaceAll(s: string, pat: string, rep: string): (r: string)
    requires |pat| > 0
    ensures (forall k :: 0 <= k < |s| ==> !OccursAt(s, pat, k)) ==> r == s
    decreases |s|
  {
    if s == [] then []
    else if OccursAt(s, pat, 0) then rep + ReplaceAll(s[|pat|..], pat, rep)
    else
      ShiftOccurs(s, pat);
      [s[0]] + ReplaceAll(s[1..], pat, rep)
  }

  lemma ShiftOccurs(s: string, pat: string)
    requires s != []
    ensures forall k :: 0 <= k < |s| - 1 ==> (OccursAt(s[1..], pat, k) <==> OccursAt(s, pat, k + 1))
  {
    forall k | 0 <= k < |s| - 1
      ensures OccursAt(s[1..], pat, k) <==> OccursAt(s, pat, k + 1)
    {
      if k + |pat| <= |s| - 1 {
        assert s[1..][k..k + |pat|] == s[k + 1..k + 1 + |pat|];
      }
    }
  }

  lemma NoOccursShift(a: string, b: string, pat: string)
    requires a != []
    requires forall k :: 0 <= k < |a| ==> !OccursAt(a + b, pat, k)
    ensures forall k :: 0 <= k < |a| - 1 ==> !OccursAt(a[1..] + b, pat, k)
  {
    assert a[1..] + b == (a + b)[1..];
    ShiftOccurs(a + b, pat);
  }

  /** A prefix `a` in which no occurrence of `pat` starts is copied unchanged. */
  lemma {:induction false} ReplaceSkip(a: string, b: string, pat: string, rep: string)
    requires |pat| > 0
    requires forall k :: 0 <= k < |a| ==> !OccursAt(a + b, pat, k)
    ensures ReplaceAll(a + b, pat, rep) == a + ReplaceAll(b, pat, rep)
    decreases |a|
  {
    if a == [] {
      assert a + b == b;
    } else {
      var s := a + b;
      assert !OccursAt(s, pat, 0);
      assert s[1..] == a[1..] + b;
      NoOccursShift(a, b, pat);
      ReplaceSkip(a[1..], b, pat, rep);
      assert [a[0]] + a[1..] == a;
    }
  }

  /** An occurrence of `pat` at the front is replaced by `rep`. */
  lemma ReplaceFront(b: string, pat: string, rep: string)
    requires |pat| > 0
    ensures ReplaceAll(pat + b, pat, rep) == rep + ReplaceAll(b, pat, rep)
  {
    assert OccursAt(pat + b, pat, 0);
    assert (pat + b)[|pat|..] == b;
  }

  /** `sep.join(xs)`. */
  function Join(sep: string, xs: seq<string>): (r: string)
    ensures xs == [] ==> r == []
    ensures |xs| == 1 ==> r == xs[0]
    decreases |xs|
  {
    if xs == [] then []
    else if |xs| == 1 then xs[0]
    else xs[0] + sep + Join(sep, xs[1..])
  }

  predicate AllDigits(w: string)
  {
    forall k :: 0 <= k < |w| ==> IsDigit(w[k])
  }

  function Pow10(n: nat): (r: nat)
    ensures r >= 1
  {
    if n == 0 then 1 else 10 * Pow10(n - 1)
  }

  /** `int(w)` for a string of decimal digits. */
  function DigitsValue(w: string): (r: nat)
    requires AllDigits(w)
    ensures r < Pow10(|w|)
    decreases |w|
  {
    if w == [] then 0
    else
      var d := (w[|w| - 1] as int) - ('0' as int);
      assert AllDigits(w[..|w| - 1]);
      DigitsValue(w[..|w| - 1]) * 10 + d
  }
}
