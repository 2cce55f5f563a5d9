/**
 * The reference rewrite of install.py: Python's `str.count` and
 * `str.replace` on a file's content, as used by `replace_in_file`, and the
 * loop of `update_file_contents` that applies it to every target file.
 */
module Replace {
  import opened Text

  /** The folder literal every target file is rewritten from. */
  const WorkflowFolder: string := ".ai-workflow"

  /** Python's `s.count(pat)`: non-overlapping occurrences found scanning
      left to right; an empty pattern is found at all |s| + 1 positions. */
  function Count(s: string, pat: string): (n: nat)
    ensures |pat| > 0 ==> n * |pat| <= |s|
    decreases |s|
  {
    if |pat| == 0 then |s| + 1
    else if |s| == 0 then 0
    else if pat <= s then 1 + Count(s[|pat|..], pat)
    else Count(s[1..], pat)
  }

  /** `rep` before, between and after every character of `s`: what
      Python's `s.replace("", rep)` returns. */
  function Interleave(s: string, rep: string): string {
    if |s| == 0 then rep else rep + [s[0]] + Interleave(s[1..], rep)
  }

  /** Python's `s.replace(pat, rep)`: every occurrence counted by `Count`
      is replaced, scanning left to right. */
  function ReplaceAll(s: string, pat: string, rep: string): string
    decreases |s|
  {
    if |pat| == 0 then Interleave(s, rep)
    else if |s| == 0 then []
    else if pat <= s then rep + ReplaceAll(s[|pat|..], pat, rep)
    else [s[0]] + ReplaceAll(s[1..], pat, rep)
  }

  /** The pieces of `s` between the occurrences of `pat`, with `cur` the
      piece collected so far (Python's `s.split(pat)`). */
  function SplitFrom(s: string, pat: string, cur: string): (parts: seq<string>)
    requires |pat| > 0
    ensures |parts| == Count(s, pat) + 1
    ensures |parts[0]| >= |cur| && parts[0][..|cur|] == cur
    decreases |s|
  {
    if |s| == 0 then [cur]
    else if pat <= s then [cur] + SplitFrom(s[|pat|..], pat, [])
    else
      var rest := SplitFrom(s[1..], pat, cur + [s[0]]);
      assert rest[0][..|cur|] == (cur + [s[0]])[..|cur|];
      rest
  }

  /** Python's `s.split(pat)`, which rejects an empty separator. */
  function Split(s: string, pat: string): (parts: seq<string>)
    requires |pat| > 0
    ensures |parts| == Count(s, pat) + 1
  {
    SplitFrom(s, pat, [])
  }

  /** Python's `sep.join(parts)`. */
  function Join(parts: seq<string>, sep: string): string {
    if |parts| == 0 then []
    else if |parts| == 1 then parts[0]
    else parts[0] + sep + Join(parts[1..], sep)
  }

  /** What `replace_in_file` does to one file: the number of occurrences it
      returns, the content the file holds afterwards, and whether the file
      was written back. */
  datatype Rewrite = Rewrite(count: nat, content: string, written: bool)

  function RewriteContent(content: string, oldText: string, newText: string): (w: Rewrite)
    ensures w.written <==> Contains(content, oldText)
    ensures w.written <==> w.count > 0
    ensures !w.written ==> w.content == content
    ensures |oldText| > 0 && w.written ==> w.content == Join(Split(content, oldText), newText)
  {
    var n := Count(content, oldText);
    CountZeroIff(content, oldText);
    if n > 0 then
      var updated := ReplaceAll(content, oldText, newText);
      assert |oldText| > 0 ==> updated == Join(Split(content, oldText), newText) by {
        if |oldText| > 0 { ReplaceIsSplitJoin(content, oldText, newText); }
      }
      Rewrite(n, updated, true)
    else
      Rewrite(0, content, false)
  }

  // ---------------------------------------------------------------------
  // Count and occurrence

  lemma OccursAtShift(s: string, pat: string, i: int)
    requires |s| > 0
    requires 1 <= i
    ensures OccursAt(s, pat, i) <==> OccursAt(s[1..], pat, i - 1)
  {
    if 0 <= i && i + |pat| <= |s| {
      assert s[1..][i - 1..i - 1 + |pat|] == s[i..i + |pat|];
    }
  }

  lemma OccursAtDrop(s: string, pat: string, d: nat, i: int)
    requires d <= |s|
    requires d <= i
    ensures OccursAt(s, pat, i) <==> OccursAt(s[d..], pat, i - d)
  {
    if i + |pat| <= |s| {
      assert s[d..][i - d..i - d + |pat|] == s[i..i + |pat|];
    }
  }

  /** The count is zero exactly when the pattern does not occur. */
  lemma {:induction false} CountZeroIff(s: string, pat: string)
    ensures Count(s, pat) == 0 <==> !Contains(s, pat)
    decreases |s|
  {
    if |pat| == 0 {
      assert OccursAt(s, pat, 0);
    } else if |s| == 0 {
    } else if pat <= s {
      assert OccursAt(s, pat, 0);
    } else {
      CountZeroIff(s[1..], pat);
      assert !OccursAt(s, pat, 0);
      if Contains(s, pat) {
        var i :| 0 <= i <= |s| - |pat| && OccursAt(s, pat, i);
        OccursAtShift(s, pat, i);
        assert Contains(s[1..], pat);
      }
      if Contains(s[1..], pat) {
        var i :| 0 <= i <= |s[1..]| - |pat| && OccursAt(s[1..], pat, i);
        OccursAtShift(s, pat, i + 1);
        assert OccursAt(s, pat, i + 1);
      }
    }
  }

  // ---------------------------------------------------------------------
  // Replacement as split-and-join

  lemma {:induction false} SplitFromJoin(s: string, pat: string, cur: string, rep: string)
    requires |pat| > 0
    ensures Join(SplitFrom(s, pat, cur), rep) == cur + ReplaceAll(s, pat, rep)
    decreases |s|
  {
    if |s| == 0 {
    } else if pat <= s {
      var rest := SplitFrom(s[|pat|..], pat, []);
      SplitFromJoin(s[|pat|..], pat, [], rep);
      assert [cur] + rest != [] && ([cur] + rest)[1..] == rest;
    } else {
      SplitFromJoin(s[1..], pat, cur + [s[0]], rep);
    }
  }

  /** Replacing is splitting on the old text and rejoining with the new. */
  lemma ReplaceIsSplitJoin(s: string, pat: string, rep: string)
    requires |pat| > 0
    ensures ReplaceAll(s, pat, rep) == Join(Split(s, pat), rep)
  {
    SplitFromJoin(s, pat, [], rep);
  }

  /** Rejoining the pieces with the old text gives back the original, so
      the text outside the matched occurrences is exactly what the rewrite
      keeps: all of it comes from `Split(s, old)`. */
  lemma SplitJoinRoundTrip(s: string, pat: string)
    requires |pat| > 0
    ensures Join(Split(s, pat), pat) == s
  {
    SplitFromJoin(s, pat, [], pat);
    ReplaceWithItself(s, pat);
  }

  lemma {:induction false} ReplaceWithItself(s: string, pat: string)
    ensures ReplaceAll(s, pat, pat) == s
    decreases |s|
  {
    if |pat| == 0 {
      InterleaveEmpty(s);
    } else if |s| == 0 {
    } else if pat <= s {
      ReplaceWithItself(s[|pat|..], pat);
      assert s == pat + s[|pat|..];
    } else {
      ReplaceWithItself(s[1..], pat);
      assert s == [s[0]] + s[1..];
    }
  }

  lemma {:induction false} InterleaveEmpty(s: string)
    ensures Interleave(s, []) == s
    decreases |s|
  {
    if |s| > 0 {
      InterleaveEmpty(s[1..]);
      assert s == [s[0]] + s[1..];
    }
  }

  /** No piece of the split contains the old text: every occurrence was
      consumed as a separator. `cur` must not start an occurrence. */
  lemma {:induction false} SplitFromPatternFree(s: string, pat: string, cur: string)
    requires |pat| > 0
    requires forall i :: 0 <= i < |cur| ==> !OccursAt(cur + s, pat, i)
    ensures forall k :: 0 <= k < |SplitFrom(s, pat, cur)| ==> !Contains(SplitFrom(s, pat, cur)[k], pat)
    decreases |s|
  {
    var parts := SplitFrom(s, pat, cur);
    if |s| == 0 {
      assert cur + s == cur;
      assert !Contains(cur, pat);
    } else if pat <= s {
      SplitFromPatternFree(s[|pat|..], pat, []);
      forall i | 0 <= i <= |cur| - |pat| && OccursAt(cur, pat, i)
        ensures false
      {
        assert (cur + s)[i..i + |pat|] == cur[i..i + |pat|];
        assert OccursAt(cur + s, pat, i);
      }
      assert !Contains(cur, pat);
      forall k | 0 <= k < |parts|
        ensures !Contains(parts[k], pat)
      {
        if k > 0 {
          assert parts[k] == SplitFrom(s[|pat|..], pat, [])[k - 1];
        }
      }
    } else {
      var cur' := cur + [s[0]];
      assert cur' + s[1..] == cur + s;
      forall i | 0 <= i < |cur'|
        ensures !OccursAt(cur' + s[1..], pat, i)
      {
        if i == |cur| {
          assert (cur + s)[i..] == s;
        }
      }
      SplitFromPatternFree(s[1..], pat, cur');
    }
  }

  lemma SplitPatternFree(s: string, pat: string)
    requires |pat| > 0
    ensures forall k :: 0 <= k < |Split(s, pat)| ==> !Contains(Split(s, pat)[k], pat)
  {
    SplitFromPatternFree(s, pat, []);
  }

  // ---------------------------------------------------------------------
  // Length and absence

  lemma {:induction false} InterleaveLength(s: string, rep: string)
    ensures |Interleave(s, rep)| == |s| + (|s| + 1) * |rep|
    decreases |s|
  {
    if |s| > 0 {
      InterleaveLength(s[1..], rep);
      MulSucc(|s| , |rep|);
      MulSucc(|s| - 1, |rep|);
    }
  }

  lemma MulSucc(c: int, d: int)
    ensures (1 + c) * d == d + c * d
  {
  }

  /** Each replacement changes the length by |rep| - |pat|. */
  lemma {:induction false} ReplaceLength(s: string, pat: string, rep: string)
    ensures |ReplaceAll(s, pat, rep)| == |s| + Count(s, pat) * (|rep| - |pat|)
    decreases |s|
  {
    if |pat| == 0 {
      InterleaveLength(s, rep);
    } else if |s| == 0 {
    } else if pat <= s {
      ReplaceLength(s[|pat|..], pat, rep);
      var c, d := Count(s[|pat|..], pat), |rep| - |pat|;
      assert Count(s, pat) == 1 + c;
      assert |ReplaceAll(s, pat, rep)| == |rep| + |s| - |pat| + c * d;
      MulSucc(c, d);
    } else {
      ReplaceLength(s[1..], pat, rep);
    }
  }

  /** Text without the old literal is returned untouched. */
  lemma {:induction false} AbsentUnchanged(s: string, pat: string, rep: string)
    requires !Contains(s, pat)
    ensures ReplaceAll(s, pat, rep) == s
    decreases |s|
  {
    CountZeroIff(s, pat);
    if |pat| == 0 {
    } else if |s| == 0 {
    } else {
      assert !(pat <= s) by { assert !OccursAt(s, pat, 0); }
      CountZeroIff(s[1..], pat);
      AbsentUnchanged(s[1..], pat, rep);
      assert s == [s[0]] + s[1..];
    }
  }

  /** The content `replace_in_file` leaves is always the replaced text:
      when nothing is written there was nothing to replace. */
  lemma RewriteContentIsReplace(s: string, oldText: string, newText: string)
    ensures RewriteContent(s, oldText, newText).content == ReplaceAll(s, oldText, newText)
    ensures RewriteContent(s, oldText, newText).count == Count(s, oldText)
  {
    CountZeroIff(s, oldText);
    if !Contains(s, oldText) {
      AbsentUnchanged(s, oldText, newText);
    }
  }

  lemma MulNonZero(a: int, b: int)
    requires a != 0 && b != 0
    ensures a * b != 0
  {
  }

  /** Replacing a pattern that occurs by text of a different length always
      changes the text. */
  lemma ReplaceChangesText(s: string, pat: string, rep: string)
    requires |rep| != |pat|
    requires Contains(s, pat)
    ensures ReplaceAll(s, pat, rep) != s
  {
    CountZeroIff(s, pat);
    ReplaceLength(s, pat, rep);
    MulNonZero(Count(s, pat), |rep| - |pat|);
  }

  /** Replacing a pattern that occurs by different text of the same length
      changes the text: the first occurrence is overwritten. */
  lemma {:induction false} SameLengthReplaceChanges(s: string, pat: string, rep: string)
    requires |pat| > 0 && |rep| == |pat| && rep != pat
    requires Contains(s, pat)
    ensures ReplaceAll(s, pat, rep) != s
    decreases |s|
  {
    var i :| 0 <= i <= |s| - |pat| && OccursAt(s, pat, i);
    if pat <= s {
      assert ReplaceAll(s, pat, rep)[..|pat|] == rep;
      assert s[..|pat|] == pat;
    } else {
      assert !OccursAt(s, pat, 0);
      OccursAtShift(s, pat, i);
      assert OccursAt(s[1..], pat, i - 1);
      SameLengthReplaceChanges(s[1..], pat, rep);
      assert ReplaceAll(s, pat, rep)[1..] == ReplaceAll(s[1..], pat, rep);
    }
  }

  /** Replacing a pattern that occurs by any other text changes the text. */
  lemma ReplaceDiffers(s: string, pat: string, rep: string)
    requires |pat| > 0 && rep != pat
    requires Contains(s, pat)
    ensures ReplaceAll(s, pat, rep) != s
  {
    if |rep| != |pat| {
      ReplaceChangesText(s, pat, rep);
    } else {
      SameLengthReplaceChanges(s, pat, rep);
    }
  }

  /** Wherever the pattern occurs, the replacement text appears in the
      result. */
  lemma {:induction false} ReplacementOccurs(s: string, pat: string, rep: string)
    requires |pat| > 0
    requires Contains(s, pat)
    ensures Contains(ReplaceAll(s, pat, rep), rep)
    decreases |s|
  {
    var i :| 0 <= i <= |s| - |pat| && OccursAt(s, pat, i);
    var r := ReplaceAll(s, pat, rep);
    if pat <= s {
      assert r[0..|rep|] == rep;
      assert OccursAt(r, rep, 0);
    } else {
      assert !OccursAt(s, pat, 0);
      OccursAtShift(s, pat, i);
      assert OccursAt(s[1..], pat, i - 1);
      ReplacementOccurs(s[1..], pat, rep);
      var tail := ReplaceAll(s[1..], pat, rep);
      var j :| 0 <= j <= |tail| - |rep| && OccursAt(tail, rep, j);
      assert r == [s[0]] + tail;
      OccursAtShift(r, rep, j + 1);
      assert r[1..] == tail;
      assert OccursAt(r, rep, j + 1);
    }
  }

  /** Occurrence is transitive: text inside text inside `s` is in `s`. */
  lemma ContainsTransitive(s: string, mid: string, pat: string)
    requires Contains(s, mid) && Contains(mid, pat)
    ensures Contains(s, pat)
  {
    var i :| 0 <= i <= |s| - |mid| && OccursAt(s, mid, i);
    var j :| 0 <= j <= |mid| - |pat| && OccursAt(mid, pat, j);
    forall t | 0 <= t < |pat|
      ensures s[i + j..i + j + |pat|][t] == pat[t]
    {
      assert pat[t] == mid[j + t] == s[i..i + |mid|][j + t];
    }
    assert OccursAt(s, pat, i + j);
  }

  /** Text shorter than the pattern cannot contain it. */
  lemma ShortAbsent(s: string, pat: string)
    requires |s| < |pat|
    ensures !Contains(s, pat)
  {
  }

  /** Dropping the suffix `more` of a longer literal: text free of `pat` is
      also free of `pat + more`. */
  lemma AbsentExtended(s: string, pat: string, more: string)
    requires !Contains(s, pat)
    ensures !Contains(s, pat + more)
  {
    if Contains(s, pat + more) {
      var i :| 0 <= i <= |s| - |pat + more| && OccursAt(s, pat + more, i);
      assert s[i..i + |pat|] == (pat + more)[..|pat|] == pat;
      assert OccursAt(s, pat, i);
    }
  }

  // ---------------------------------------------------------------------
  // Replacing piecewise

  /** No occurrence of `pat` in `a + b` starts inside `a` and ends inside `b`. */
  predicate NoStraddle(a: string, b: string, pat: string) {
    forall i :: 0 <= i < |a| < i + |pat| ==> !OccursAt(a + b, pat, i)
  }

  /** No suffix of `a` shorter than `pat` is a prefix of `pat`, so no text
      that follows `a` can complete an occurrence started inside it. */
  predicate EndsClear(a: string, pat: string) {
    forall i :: 0 <= i < |a| && |a| - i < |pat| ==> !(a[i..] <= pat)
  }

  /** When no occurrence crosses the boundary, the two halves are rewritten
      independently. */
  lemma {:induction false} ReplaceConcat(a: string, b: string, pat: string, rep: string)
    requires |pat| > 0
    requires NoStraddle(a, b, pat)
    ensures ReplaceAll(a + b, pat, rep) == ReplaceAll(a, pat, rep) + ReplaceAll(b, pat, rep)
    ensures Count(a + b, pat) == Count(a, pat) + Count(b, pat)
    decreases |a|
  {
    if |a| == 0 {
      assert a + b == b;
    } else if pat <= a + b {
      assert OccursAt(a + b, pat, 0);
      assert pat <= a;
      var a' := a[|pat|..];
      assert (a + b)[|pat|..] == a' + b;
      forall i | 0 <= i < |a'| < i + |pat|
        ensures !OccursAt(a' + b, pat, i)
      {
        OccursAtDrop(a + b, pat, |pat|, i + |pat|);
      }
      ReplaceConcat(a', b, pat, rep);
    } else {
      var a' := a[1..];
      assert (a + b)[1..] == a' + b;
      forall i | 0 <= i < |a'| < i + |pat|
        ensures !OccursAt(a' + b, pat, i)
      {
        OccursAtDrop(a + b, pat, 1, i + 1);
      }
      ReplaceConcat(a', b, pat, rep);
    }
  }

  lemma EndsClearNoStraddle(a: string, b: string, pat: string)
    requires EndsClear(a, pat)
    ensures NoStraddle(a, b, pat)
  {
    forall i | 0 <= i < |a| < i + |pat|
      ensures !OccursAt(a + b, pat, i)
    {
      assert (a + b)[i..][..|a| - i] == a[i..];
    }
  }

  /** A boundary in front of a character that `pat` does not contain
      cannot be straddled. */
  lemma ForeignStartNoStraddle(a: string, b: string, pat: string)
    requires |b| > 0 && !HasChar(pat, b[0])
    ensures NoStraddle(a, b, pat)
  {
    forall i | 0 <= i < |a| < i + |pat|
      ensures !OccursAt(a + b, pat, i)
    {
      assert (a + b)[|a|] == b[0];
    }
  }

  /** Text `c` that cannot take part in an occurrence of `pat` (it starts
      with a character foreign to `pat`, does not contain `pat`, and ends
      clear of it) comes through a rewrite of its surroundings verbatim. */
  lemma SurroundedTextSurvives(x: string, c: string, y: string, pat: string, rep: string)
    requires |pat| > 0
    requires |c| > 0 && !HasChar(pat, c[0])
    requires !Contains(c, pat) && EndsClear(c, pat)
    ensures ReplaceAll(x + c + y, pat, rep) == ReplaceAll(x, pat, rep) + c + ReplaceAll(y, pat, rep)
  {
    assert x + c + y == x + (c + y);
    ForeignStartNoStraddle(x, c + y, pat);
    ReplaceConcat(x, c + y, pat, rep);
    EndsClearNoStraddle(c, y, pat);
    ReplaceConcat(c, y, pat, rep);
    AbsentUnchanged(c, pat, rep);
  }
}
