/** Searching in strings. */
module Strings {
  import opened Wrappers

  predicate OccursAt(s: string, pat: string, k: nat) {
    k + |pat| <= |s| && s[k..k + |pat|] == pat
  }

  /** The first occurrence from index i on. */
  function FindFrom(s: string, pat: string, i: nat): (r: Option<nat>)
    requires i <= |s|
    ensures r.Some? ==> i <= r.value && OccursAt(s, pat, r.value) && forall k | i <= k < r.value :: !OccursAt(s, pat, k)
    ensures r.None? ==> forall k: nat | i <= k :: !OccursAt(s, pat, k)
    decreases |s| - i
  {
    if OccursAt(s, pat, i) then Some(i)
    else if i == |s| then None
    else FindFrom(s, pat, i + 1)
  }

  /** `str::find` */
  function Find(s: string, pat: string): Option<nat> {
    FindFrom(s, pat, 0)
  }

  lemma FindIs(s: string, pat: string, k: nat)
    requires OccursAt(s, pat, k) && forall j | 0 <= j < k :: !OccursAt(s, pat, j)
    ensures Find(s, pat) == Some(k)
  {
  }

  /** Where c first occurs, from i on. */
  function IndexFrom(s: string, c: char, i: nat): (r: nat)
    requires exists j | i <= j < |s| :: s[j] == c
    ensures i <= r < |s| && s[r] == c && forall j | i <= j < r :: s[j] != c
    decreases |s| - i
  {
    if s[i] == c then i else IndexFrom(s, c, i + 1)
  }

  function FirstIndex(s: string, c: char): (r: nat)
    requires c in s
    ensures r < |s| && s[r] == c && forall j | 0 <= j < r :: s[j] != c
  {
    IndexFrom(s, c, 0)
  }

  /** Where c last occurs before n. */
  function IndexBefore(s: string, c: char, n: nat): (r: nat)
    requires n <= |s| && exists j | 0 <= j < n :: s[j] == c
    ensures r < n && s[r] == c && forall j | r < j < n :: s[j] != c
  {
    if s[n - 1] == c then n - 1 else IndexBefore(s, c, n - 1)
  }

  function LastIndex(s: string, c: char): (r: nat)
    requires c in s
    ensures r < |s| && s[r] == c && forall j | r < j < |s| :: s[j] != c
  {
    IndexBefore(s, c, |s|)
  }

  lemma LastIndexIs(a: string, c: char, b: string)
    requires c !in b
    ensures LastIndex(a + [c] + b, c) == |a|
  {
    var s := a + [c] + b;
    assert s[|a|] == c && forall j | |a| < j < |s| :: s[j] == b[j - |a| - 1];
  }

  lemma FirstIndexIs(a: string, c: char, b: string)
    requires c !in a
    ensures FirstIndex(a + [c] + b, c) == |a|
  {
    var s := a + [c] + b;
    assert s[|a|] == c && forall j | 0 <= j < |a| :: s[j] == a[j];
  }

  /** Splitting at the character between two strings. */
  lemma Pieces(a: string, c: char, b: string)
    ensures (a + [c] + b)[..|a|] == a && (a + [c] + b)[|a| + 1..] == b
  {
  }

  /** The texts of several things, one after the other. */
  function Concat<T>(f: T -> string, ts: seq<T>): string {
    if ts == [] then "" else Concat(f, ts[..|ts| - 1]) + f(ts[|ts| - 1])
  }

  lemma ConcatNext<T>(f: T -> string, ts: seq<T>, t: T)
    ensures Concat(f, ts + [t]) == Concat(f, ts) + f(t)
  {
    assert (ts + [t])[..|ts|] == ts;
  }

  lemma Associates<T>(a: seq<T>, b: seq<T>, c: seq<T>)
    ensures a + b + c == a + (b + c)
  {
  }

  // ── Patterns that do not overlap themselves ─────────────────────────

  ghost predicate Contains(s: string, pat: string) {
    exists k: nat :: OccursAt(s, pat, k)
  }

  lemma FindContains(s: string, pat: string)
    ensures Find(s, pat).Some? <==> Contains(s, pat)
  {
  }

  /** No proper end of the pattern is also its start. */
  predicate Borderless(pat: string) {
    forall d | 0 < d < |pat| :: pat[d..] != pat[..|pat| - d]
  }

  lemma Overlapping(s: string, pat: string, j: nat, k: nat)
    requires OccursAt(s, pat, j) && OccursAt(s, pat, k) && j < k < j + |pat|
    ensures pat[k - j..] == pat[..|pat| - (k - j)]
  {
    assert pat[k - j..] == s[k..j + |pat|] == pat[..|pat| - (k - j)];
  }

  lemma Apart(s: string, pat: string, j: nat, k: nat)
    requires Borderless(pat) && OccursAt(s, pat, k) && j < k < j + |pat|
    ensures !OccursAt(s, pat, j)
  {
    if OccursAt(s, pat, j) { Overlapping(s, pat, j, k); }
  }

  /** Behind text without the pattern, the pattern is found where that text ends. */
  lemma FindBehind(before: string, pat: string, after: string)
    requires Borderless(pat) && pat != "" && !Contains(before, pat)
    ensures Find(before + pat + after, pat) == Some(|before|)
  {
    var s := before + pat + after;
    assert s[|before|..|before| + |pat|] == pat;
    forall j: nat | j < |before| ensures !OccursAt(s, pat, j) {
      if j + |pat| <= |before| {
        assert !OccursAt(before, pat, j) && s[j..j + |pat|] == before[j..j + |pat|];
      } else {
        Apart(s, pat, j, |before|);
      }
    }
    FindIs(s, pat, |before|);
  }
}
