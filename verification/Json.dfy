/** Looking up a field of hand-written JSON by the first match of its quoted name. */
module Json {
  import opened Strings
  import opened Wrappers

  const QUOTE: char := '\"'

  predicate QuoteFree(s: string) {
    QUOTE !in s
  }

  predicate AllQuoteFree(segs: seq<string>) {
    forall i | 0 <= i < |segs| :: QuoteFree(segs[i])
  }

  /** A text as the segments between its quotes. */
  function JoinQuotes(segs: seq<string>): string
    requires segs != []
  {
    if |segs| == 1 then segs[0] else JoinQuotes(segs[..|segs| - 1]) + [QUOTE] + segs[|segs| - 1]
  }

  lemma JoinSnoc(segs: seq<string>, seg: string)
    requires segs != []
    ensures JoinQuotes(segs + [seg]) == JoinQuotes(segs) + [QUOTE] + seg
  {
    assert (segs + [seg])[..|segs|] == segs;
  }

  function Quoted(name: string): string {
    [QUOTE] + name + [QUOTE]
  }

  /** What a field's value is searched by: the quoted name, a colon and how the value opens. */
  function Pattern(name: string, opening: string): string {
    Quoted(name) + ":" + opening
  }

  // ── Where a quoted name can be ──────────────────────────────────────

  /** A quoted name between two quotes, read character by character. */
  predicate QuotedAt(s: string, name: string, k: nat) {
    k + |name| + 1 < |s| && s[k] == QUOTE && s[k + 1..k + 1 + |name|] == name && s[k + |name| + 1] == QUOTE
  }

  /** In front of one more segment, a quoted name ends before the last quote or at it. */
  lemma QuotedBefore(before: string, seg: string, name: string, k: nat)
    requires QuoteFree(seg) && QuotedAt(before + [QUOTE] + seg, name, k)
    ensures k + |name| + 1 <= |before|
    ensures k + |name| + 1 < |before| ==> QuotedAt(before, name, k)
  {
    var s := before + [QUOTE] + seg;
    var close := k + |name| + 1;
    assert forall j | |before| < j < |s| :: s[j] == seg[j - |before| - 1];
    assert s[close] == QUOTE;
    if close < |before| {
      assert before[k + 1..k + 1 + |name|] == s[k + 1..k + 1 + |name|];
    }
  }

  /** A text that ends in a quote and a quote-free name ends in that name as its last segment. */
  lemma LastSegment(before: string, seg: string, name: string, k: nat)
    requires QuoteFree(seg) && QuoteFree(name)
    requires k + |name| + 1 == |before| + 1 + |seg|
    requires (before + [QUOTE] + seg)[k] == QUOTE && (before + [QUOTE] + seg)[k + 1..] == name
    ensures name == seg
  {
    var s := before + [QUOTE] + seg;
    assert s[|before|] == QUOTE;
    assert forall j | |before| < j < |s| :: s[j] == seg[j - |before| - 1];
    assert forall j | k < j < |s| :: s[j] == name[j - k - 1];
    assert k == |before|;
    assert s[k + 1..] == seg;
  }

  /** A quoted name in a text is one of the segments between two quotes. */
  lemma {:induction false} QuotedIsSegment(segs: seq<string>, name: string, k: nat) returns (i: nat)
    requires segs != [] && AllQuoteFree(segs) && QuoteFree(name) && QuotedAt(JoinQuotes(segs), name, k)
    ensures 0 < i < |segs| - 1 && segs[i] == name
    decreases |segs|
  {
    var n := |segs|;
    if n == 1 {
      assert false;
    } else {
      var init := segs[..n - 1];
      var before := JoinQuotes(init);
      QuotedBefore(before, segs[n - 1], name, k);
      if k + |name| + 1 < |before| {
        i := QuotedIsSegment(init, name, k);
      } else {
        i := n - 2;
        EndsInName(init, name, k, segs[n - 1]);
      }
    }
  }

  lemma EndsInName(init: seq<string>, name: string, k: nat, seg: string)
    requires init != [] && AllQuoteFree(init) && QuoteFree(name)
    requires k + |name| + 1 == |JoinQuotes(init)| && QuotedAt(JoinQuotes(init) + [QUOTE] + seg, name, k)
    ensures |init| > 1 && init[|init| - 1] == name
  {
    var before := JoinQuotes(init);
    var s := before + [QUOTE] + seg;
    assert before[k] == s[k] == QUOTE && before[k + 1..] == s[k + 1..k + 1 + |name|];
    if |init| > 1 {
      LastSegment(JoinQuotes(init[..|init| - 1]), init[|init| - 1], name, k);
    }
  }

  // ── First match ─────────────────────────────────────────────────────

  predicate FieldName(name: string) {
    name != "" && QuoteFree(name) && ':' !in name
  }

  /** A pattern that starts earlier has its whole quoted name earlier. */
  lemma EarlierPattern(pre: string, name: string, opening: string, post: string, j: nat)
    requires FieldName(name) && j < |pre| && OccursAt(pre + Pattern(name, opening) + post, Pattern(name, opening), j)
    ensures QuotedAt(pre, name, j)
  {
    var p := Pattern(name, opening);
    var s := pre + p + post;
    assert p[0] == QUOTE && p[1..|name| + 1] == name && p[|name| + 1] == QUOTE && p[|name| + 2] == ':';
    assert forall i | 0 <= i < |p| :: s[j + i] == s[j..j + |p|][i] == p[i];
    assert forall i | 0 <= i < |p| :: s[|pre| + i] == p[i];
    assert forall i | 1 <= i < |name| + 1 :: p[i] == name[i - 1];
    assert s[|pre|] == QUOTE && s[|pre| + 1] == name[0];
    var close := j + |name| + 1;
    assert s[close] == QUOTE && s[close + 1] == ':';
    assert close != |pre|;
    assert !(j < |pre| < close);
    assert pre[j + 1..close] == s[j..j + |p|][1..|name| + 1];
  }

  /** The first match of a field's pattern is the field, when no earlier segment is its name. */
  lemma FieldFound(segs: seq<string>, name: string, opening: string, post: string)
    requires segs != [] && AllQuoteFree(segs) && FieldName(name)
    requires forall i | 0 < i < |segs| - 1 :: segs[i] != name
    ensures var pre := JoinQuotes(segs);
            Find(pre + Pattern(name, opening) + post, Pattern(name, opening)) == Some(|pre|)
  {
    var pre, p := JoinQuotes(segs), Pattern(name, opening);
    var s := pre + p + post;
    assert s[|pre|..|pre| + |p|] == p;
    forall j: nat | j < |pre| ensures !OccursAt(s, p, j) {
      if OccursAt(s, p, j) {
        EarlierPattern(pre, name, opening, post, j);
        var i := QuotedIsSegment(segs, name, j);
      }
    }
    FindIs(s, p, |pre|);
  }
}
