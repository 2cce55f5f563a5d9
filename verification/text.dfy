/**
 * Character and string primitives used by install.py through Python's
 * built-in `str` methods: `strip()`, `lower()` and substring occurrence.
 */
module Text {

  /** Python's whitespace set, shared by `str.strip()`, `str.isspace()`
      and the `\s` class of a `str` regular expression. */
  predicate IsSpace(c: char) {
    || c == ' '
    || ('\t' <= c <= '\r')
    || ('\U{1c}' <= c <= '\U{1f}')
    || c == '\U{85}'
    || c == '\U{a0}'
    || c == '\U{1680}'
    || ('\U{2000}' <= c <= '\U{200a}')
    || c == '\U{2028}'
    || c == '\U{2029}'
    || c == '\U{202f}'
    || c == '\U{205f}'
    || c == '\U{3000}'
  }

  predicate AllSpace(s: string) {
    forall k :: 0 <= k < |s| ==> IsSpace(s[k])
  }

  /** `s` carries no whitespace at either end. */
  predicate Trimmed(s: string) {
    |s| > 0 ==> !IsSpace(s[0]) && !IsSpace(s[|s| - 1])
  }

  /** The end of the whitespace run that starts at `i`. */
  function SpaceRunEnd(s: string, i: nat): (r: nat)
    requires i <= |s|
    ensures i <= r <= |s|
    ensures forall k :: i <= k < r ==> IsSpace(s[k])
    ensures r < |s| ==> !IsSpace(s[r])
    decreases |s| - i
  {
    if i == |s| || !IsSpace(s[i]) then i else SpaceRunEnd(s, i + 1)
  }

  /** The start of the whitespace run that ends at `j`, going no lower
      than `lo`. */
  function SpaceRunStart(s: string, lo: nat, j: nat): (r: nat)
    requires lo <= j <= |s|
    ensures lo <= r <= j
    ensures forall k :: r <= k < j ==> IsSpace(s[k])
    ensures r > lo ==> !IsSpace(s[r - 1])
    decreases j - lo
  {
    if j == lo || !IsSpace(s[j - 1]) then j else SpaceRunStart(s, lo, j - 1)
  }

  /** Python's `str.strip()` with no argument: the input with its leading
      and trailing whitespace runs removed. */
  function Strip(s: string): (r: string)
    ensures Trimmed(r) && |r| <= |s|
  {
    var a := SpaceRunEnd(s, 0);
    s[a..SpaceRunStart(s, a, |s|)]
  }

  /** Where the stripped text starts in its input. */
  function StripStart(s: string): nat {
    SpaceRunEnd(s, 0)
  }

  /** The stripped text is the slice of the input between its leading
      and its trailing whitespace runs. */
  lemma StripIsSlice(s: string)
    ensures StripStart(s) + |Strip(s)| <= |s|
    ensures Strip(s) == s[StripStart(s)..StripStart(s) + |Strip(s)|]
    ensures AllSpace(s[..StripStart(s)]) && AllSpace(s[StripStart(s) + |Strip(s)|..])
  {
    var a := SpaceRunEnd(s, 0);
    var b := SpaceRunStart(s, a, |s|);
    assert |Strip(s)| == b - a;
    forall k | 0 <= k < a
      ensures IsSpace(s[..a][k])
    {
    }
    forall k | 0 <= k < |s| - b
      ensures IsSpace(s[b..][k])
    {
      assert s[b..][k] == s[b + k];
    }
  }

  /** Python's `str.lower()` on one character.  Upper-case ASCII letters and
      KELVIN SIGN (the one non-ASCII character Python lower-cases to ASCII)
      are mapped; every other character is kept. */
  function LowerChar(c: char): (r: char)
    ensures IsSpace(r) <==> IsSpace(c)
    ensures 'A' <= c <= 'Z' ==> r != c
  {
    if 'A' <= c <= 'Z' then (c as int + 32) as char
    else if c == '\U{212A}' then 'k'
    else c
  }

  function Lower(s: string): (r: string)
    ensures |r| == |s|
    ensures forall k :: 0 <= k < |s| ==> r[k] == LowerChar(s[k])
  {
    seq(|s|, k requires 0 <= k < |s| => LowerChar(s[k]))
  }

  /** The response normalisation `.strip().lower()` used for every
      closed-set prompt of the installer. */
  function Normalize(s: string): string {
    Lower(Strip(s))
  }

  lemma LowerCharIdempotent(c: char)
    ensures LowerChar(LowerChar(c)) == LowerChar(c)
  {
  }

  /** Lower-casing never creates or removes whitespace, so it commutes
      with stripping. */
  lemma LowerStripCommute(s: string)
    ensures Strip(Lower(s)) == Lower(Strip(s))
  {
    var a := SpaceRunEnd(s, 0);
    var b := SpaceRunStart(s, a, |s|);
    SpaceRunEndLower(s, 0);
    SpaceRunStartLower(s, a, |s|);
    assert Strip(Lower(s)) == Lower(s)[a..b];
    LowerSlice(s, a, b);
  }

  lemma LowerSlice(s: string, a: nat, b: nat)
    requires a <= b <= |s|
    ensures Lower(s)[a..b] == Lower(s[a..b])
  {
    forall k | 0 <= k < b - a
      ensures Lower(s)[a..b][k] == Lower(s[a..b])[k]
    {
      assert Lower(s)[a..b][k] == Lower(s)[a + k];
    }
  }

  lemma {:induction false} SpaceRunEndLower(s: string, i: nat)
    requires i <= |s|
    ensures SpaceRunEnd(Lower(s), i) == SpaceRunEnd(s, i)
    decreases |s| - i
  {
    if i < |s| && IsSpace(s[i]) {
      SpaceRunEndLower(s, i + 1);
    }
  }

  lemma {:induction false} SpaceRunStartLower(s: string, lo: nat, j: nat)
    requires lo <= j <= |s|
    ensures SpaceRunStart(Lower(s), lo, j) == SpaceRunStart(s, lo, j)
    decreases j - lo
  {
    if lo < j && IsSpace(s[j - 1]) {
      SpaceRunStartLower(s, lo, j - 1);
    }
  }

  lemma StripTrimmed(s: string)
    requires Trimmed(s)
    ensures Strip(s) == s
  {
    assert s[0..|s|] == s;
  }

  /** Normalising twice is normalising once: a response that was already
      stripped and lower-cased decodes the same way. */
  lemma LowerIdempotent(s: string)
    ensures Lower(Lower(s)) == Lower(s)
  {
    forall k | 0 <= k < |s|
      ensures Lower(Lower(s))[k] == Lower(s)[k]
    {
      LowerCharIdempotent(s[k]);
    }
  }

  lemma {:induction false} NormalizeIdempotent(s: string)
    ensures Normalize(Normalize(s)) == Normalize(s)
  {
    var t := Strip(s);
    calc {
      Normalize(Normalize(s));
      Lower(Strip(Lower(t)));
      { LowerStripCommute(t); }
      Lower(Lower(Strip(t)));
      { StripTrimmed(t); }
      Lower(Lower(t));
      { LowerIdempotent(t); }
      Lower(t);
    }
  }

  /** `pat` occurs in `s` starting at index `i`. */
  predicate OccursAt(s: string, pat: string, i: int) {
    0 <= i && i + |pat| <= |s| && s[i..i + |pat|] == pat
  }

  /** Python's `pat in s`. */
  predicate Contains(s: string, pat: string) {
    exists i :: 0 <= i <= |s| - |pat| && OccursAt(s, pat, i)
  }

  /** Python's `c in s` for a single character. */
  predicate HasChar(s: string, c: char) {
    exists k :: 0 <= k < |s| && s[k] == c
  }
}
