/** Lines and surrounding white space, as Rust's `lines` and `trim` see them. */
module Text {

  // ── White space ─────────────────────────────────────────────────────

  predicate IsWhite(c: char) {
    var n := c as int;
    || 0x09 <= n <= 0x0D || n == 0x20 || n == 0x85 || n == 0xA0 || n == 0x1680 || 0x2000 <= n <= 0x200A
    || n == 0x2028 || n == 0x2029 || n == 0x202F || n == 0x205F || n == 0x3000
  }

  /** The white space of Unicode, one by one. */
  lemma WhiteCharacters(c: char)
    ensures IsWhite(c) <==> c as int in {
              0x9, 0xA, 0xB, 0xC, 0xD, 0x20, 0x85, 0xA0, 0x1680, 0x2000, 0x2001, 0x2002, 0x2003, 0x2004, 0x2005, 0x2006,
              0x2007, 0x2008, 0x2009, 0x200A, 0x2028, 0x2029, 0x202F, 0x205F, 0x3000}
  {
  }

  predicate Blank(s: string) {
    forall i | 0 <= i < |s| :: IsWhite(s[i])
  }

  /** The first position from i on that is not white, or the end. */
  function SkipWhite(s: string, i: nat): (r: nat)
    requires i <= |s|
    ensures i <= r <= |s| && (forall j | i <= j < r :: IsWhite(s[j])) && (r < |s| ==> !IsWhite(s[r]))
    decreases |s| - i
  {
    if i < |s| && IsWhite(s[i]) then SkipWhite(s, i + 1) else i
  }

  /** The end of what is not white before n, or `from`. */
  function SkipBack(s: string, from: nat, n: nat): (r: nat)
    requires from <= n <= |s|
    ensures from <= r <= n && (forall j | r <= j < n :: IsWhite(s[j])) && (r > from ==> !IsWhite(s[r - 1]))
    decreases n
  {
    if n > from && IsWhite(s[n - 1]) then SkipBack(s, from, n - 1) else n
  }

  /** `str::trim` */
  function Trim(s: string): string {
    var start := SkipWhite(s, 0);
    s[start..SkipBack(s, start, |s|)]
  }

  lemma TrimIs(s: string, start: nat, end: nat)
    requires start < end <= |s| && !IsWhite(s[start]) && !IsWhite(s[end - 1])
    requires Blank(s[..start]) && Blank(s[end..])
    ensures Trim(s) == s[start..end]
  {
    assert forall j | 0 <= j < start :: s[j] == s[..start][j];
    assert forall j | end <= j < |s| :: s[j] == s[end..][j - end];
    assert SkipWhite(s, 0) == start;
    assert SkipBack(s, start, |s|) == end;
  }

  /** Text that neither starts nor ends white is its own trimmed form. */
  lemma TrimSolid(s: string)
    requires s != "" && !IsWhite(s[0]) && !IsWhite(s[|s| - 1])
    ensures Trim(s) == s
  {
    TrimIs(s, 0, |s|);
  }

  lemma TrimBlank(s: string)
    ensures Trim(s) == "" <==> Blank(s)
  {
  }

  /** Trimming the part before solid text saves at least that text. */
  lemma TrimBefore(before: string, solid: string, after: string)
    requires solid != "" && !IsWhite(solid[0]) && !IsWhite(solid[|solid| - 1])
    ensures |Trim(before)| + |solid| <= |Trim(before + solid + after)|
  {
    var s := before + solid + after;
    var n := |before| + |solid|;
    assert s[|before|] == solid[0] && s[n - 1] == solid[|solid| - 1];
    var start := SkipWhite(s, 0);
    assert start <= |before|;
    assert SkipBack(s, start, |s|) >= n;
    assert forall i | 0 <= i < |before| :: s[i] == before[i];
    assert SkipWhite(before, 0) >= start;
  }

  // ── Lines ───────────────────────────────────────────────────────────

  /** `str::lines`: a line ends at a line feed, and a carriage return right before it belongs to the ending. */
  function Lines(s: string): seq<string>
    decreases |s|
  {
    if s == "" then []
    else if s[0] == '\n' then [""] + Lines(s[1..])
    else if s[0] == '\r' && |s| > 1 && s[1] == '\n' then Lines(s[1..])
    else Prepend(s[0], Lines(s[1..]))
  }

  /** c as the first character of the first line. */
  function Prepend(c: char, lines: seq<string>): seq<string> {
    if lines == [] then [[c]] else [[c] + lines[0]] + lines[1..]
  }

  /** Empty, or ended by a line feed. */
  predicate Ended(s: string) {
    s == "" || s[|s| - 1] == '\n'
  }

  lemma {:induction false} SomeLine(s: string)
    ensures Lines(s) == [] <==> s == ""
    decreases |s|
  {
    if s != "" { SomeLine(s[1..]); }
  }

  lemma PrependAppend(c: char, a: seq<string>, b: seq<string>)
    requires a != []
    ensures Prepend(c, a + b) == Prepend(c, a) + b
  {
    assert (a + b)[1..] == a[1..] + b;
  }

  /** Lines do not reach across a line feed. */
  lemma {:induction false} LinesAppend(a: string, b: string)
    requires Ended(a)
    ensures Lines(a + b) == Lines(a) + Lines(b)
    decreases |a|
  {
    if a == "" {
      assert a + b == b;
    } else {
      assert (a + b)[1..] == a[1..] + b;
      LinesAppend(a[1..], b);
      if a[0] != '\n' {
        SomeLine(a[1..]);
        PrependAppend(a[0], Lines(a[1..]), Lines(b));
      }
    }
  }

  /** A line without line feeds, not ended by a carriage return. */
  predicate Plain(line: string) {
    '\n' !in line && (line != "" ==> line[|line| - 1] != '\r')
  }

  lemma {:induction false} OneLine(line: string)
    requires Plain(line)
    ensures Lines(line + "\n") == [line]
    decreases |line|
  {
    if line == "" {
      assert line + "\n" == "\n" && "\n"[1..] == "";
    } else {
      assert (line + "\n")[1..] == line[1..] + "\n";
      OneLine(line[1..]);
      assert [line[0]] + line[1..] == line;
    }
  }

  /** A line in the middle of a text. */
  lemma MiddleLine(before: string, line: string, after: string)
    requires Plain(line)
    ensures Lines(before + "\n" + line + "\n" + after) == Lines(before + "\n") + ([line] + Lines(after))
  {
    OneLine(line);
    LinesAppend(line + "\n", after);
    LinesAppend(before + "\n", line + "\n" + after);
    assert before + "\n" + line + "\n" + after == before + "\n" + (line + "\n" + after);
  }
}
