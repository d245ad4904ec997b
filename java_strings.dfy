/** The three java.lang.String operations the evaluator's text rewriting relies on:
    indexOf(pattern, from), substring(begin, end) and replace(target, replacement). */
module JavaStrings {
  import opened Wrappers

  /** `pat` occurs in `s` starting at index `k`. */
  predicate OccursAt(s: string, pat: string, k: int) {
    0 <= k && k + |pat| <= |s| && s[k..k + |pat|] == pat
  }

  /** `i` is the first index at or after `from` where `pat` occurs. */
  predicate FirstFrom(s: string, pat: string, from: nat, i: int) {
    from <= i && OccursAt(s, pat, i) && forall k :: from <= k < i ==> !OccursAt(s, pat, k)
  }

  function Max0(n: int): nat {
    if n < 0 then 0 else n
  }

  /** String.indexOf(pat, from): a negative `from` searches from 0, and -1 means absent. */
  function IndexOf(s: string, pat: string, from: int): (r: int)
    requires |pat| > 0
    ensures r == -1 || (Max0(from) <= r && r + |pat| <= |s|)
    decreases |s| - from
  {
    if from < 0 then IndexOf(s, pat, 0)
    else if from + |pat| > |s| then -1
    else if OccursAt(s, pat, from) then from
    else IndexOf(s, pat, from + 1)
  }

  /** indexOf finds the first occurrence at or after max(from, 0), and answers -1 exactly
      when there is none. */
  lemma {:induction false} IndexOfFirst(s: string, pat: string, from: int)
    requires |pat| > 0
    ensures var r := IndexOf(s, pat, from);
            (r == -1 || FirstFrom(s, pat, Max0(from), r)) &&
            (r == -1 <==> forall k :: Max0(from) <= k ==> !OccursAt(s, pat, k))
    decreases |s| - from
  {
    if from < 0 {
      IndexOfFirst(s, pat, 0);
    } else if from + |pat| <= |s| && !OccursAt(s, pat, from) {
      IndexOfFirst(s, pat, from + 1);
    }
  }

  /** The first occurrence at or after `from` is what indexOf returns. */
  lemma IndexOfIs(s: string, pat: string, from: nat, i: int)
    requires |pat| > 0 && FirstFrom(s, pat, from, i)
    ensures IndexOf(s, pat, from) == i
  {
    IndexOfFirst(s, pat, from);
  }

  /** With no occurrence at or after `from`, indexOf returns -1. */
  lemma IndexOfAbsent(s: string, pat: string, from: nat)
    requires |pat| > 0 && forall k :: from <= k ==> !OccursAt(s, pat, k)
    ensures IndexOf(s, pat, from) == -1
  {
    IndexOfFirst(s, pat, from);
  }

  /** String.substring(b, e); None where Java throws StringIndexOutOfBoundsException. */
  function Substring(s: string, b: int, e: int): Option<string> {
    if 0 <= b <= e <= |s| then Some(s[b..e]) else None
  }

  /** String.replace(pat, rep): every non-overlapping occurrence, scanning left to right. */
  function Replace(s: string, pat: string, rep: string): string
    requires |pat| > 0
    decreases |s|
  {
    if |s| < |pat| then s
    else if s[..|pat|] == pat then rep + Replace(s[|pat|..], pat, rep)
    else [s[0]] + Replace(s[1..], pat, rep)
  }

  lemma OccursShift(s: string, pat: string, k: nat)
    requires |s| > 0
    ensures OccursAt(s[1..], pat, k) <==> OccursAt(s, pat, k + 1)
  {
    if 0 <= k && k + |pat| <= |s| - 1 {
      assert s[1..][k..k + |pat|] == s[k + 1..k + 1 + |pat|];
    }
  }

  /** Where `pat` does not occur, replace leaves the text unchanged. */
  lemma {:induction false} ReplaceAbsent(s: string, pat: string, rep: string)
    requires |pat| > 0
    requires forall k :: !OccursAt(s, pat, k)
    ensures Replace(s, pat, rep) == s
    decreases |s|
  {
    if |s| >= |pat| {
      assert !OccursAt(s, pat, 0);
      forall k: nat ensures !OccursAt(s[1..], pat, k) {
        OccursShift(s, pat, k);
      }
      ReplaceAbsent(s[1..], pat, rep);
      assert [s[0]] + s[1..] == s;
    }
  }

  /** Text before the first possible occurrence is copied through unchanged. */
  lemma {:induction false} ReplaceSkips(s: string, pat: string, rep: string, i: nat)
    requires |pat| > 0 && i + |pat| <= |s|
    requires forall k :: 0 <= k < i ==> !OccursAt(s, pat, k)
    ensures Replace(s, pat, rep) == s[..i] + Replace(s[i..], pat, rep)
    decreases i
  {
    if i > 0 {
      assert !OccursAt(s, pat, 0);
      assert Replace(s, pat, rep) == [s[0]] + Replace(s[1..], pat, rep);
      NoneBeforeShift(s, pat, i);
      ReplaceSkips(s[1..], pat, rep, i - 1);
      PrefixStep(s, i);
    }
  }

  /** Dropping the first character moves every occurrence one place to the left. */
  lemma NoneBeforeShift(s: string, pat: string, i: nat)
    requires 0 < i <= |s|
    requires forall k :: 0 <= k < i ==> !OccursAt(s, pat, k)
    ensures forall k :: 0 <= k < i - 1 ==> !OccursAt(s[1..], pat, k)
  {
    forall k | 0 <= k < i - 1 ensures !OccursAt(s[1..], pat, k) {
      OccursShift(s, pat, k);
    }
  }

  lemma PrefixStep(s: string, i: nat)
    requires 0 < i <= |s|
    ensures s[1..][i - 1..] == s[i..] && [s[0]] + s[1..][..i - 1] == s[..i]
  {
  }

  /** replace agrees with indexOf: the first occurrence is replaced and the scan resumes
      right after it; with no occurrence the text is unchanged. */
  lemma ReplaceFirst(s: string, pat: string, rep: string)
    requires |pat| > 0
    ensures var i := IndexOf(s, pat, 0);
            if i < 0 then Replace(s, pat, rep) == s
            else Replace(s, pat, rep) == s[..i] + rep + Replace(s[i + |pat|..], pat, rep)
  {
    var i := IndexOf(s, pat, 0);
    IndexOfFirst(s, pat, 0);
    if i < 0 {
      ReplaceAbsent(s, pat, rep);
    } else {
      ReplaceSkips(s, pat, rep, i);
      assert s[i..][..|pat|] == pat;
      assert s[i..][|pat|..] == s[i + |pat|..];
    }
  }
}
