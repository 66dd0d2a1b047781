/** The serial console: what the guest prints and which exit code the host reads. */
module Serial {
  import opened Decimal
  import opened Hexadecimal
  import opened Strings
  import opened Text
  import opened Numbers
  import opened Wrappers

  const EXIT_CODE_MARKER := "VISOR_EXIT_CODE="
  const STDOUT_BEGIN_MARKER := "VISOR_STDOUT_BEGIN"
  const STDOUT_END_MARKER := "VISOR_STDOUT_END"
  const PANIC_EXIT_CODE_MARKER := "exitcode=0x"
  const I32_MAX: nat := 0x7FFF_FFFF

  // ── The guest ───────────────────────────────────────────────────────

  function MarkerLine(code: int): string {
    EXIT_CODE_MARKER + PrintSigned(code)
  }

  function ExitMarker(code: int): string {
    "\n" + MarkerLine(code) + "\n"
  }

  /** Everything a run prints: the markers around the user's output and the exit code at the end. */
  function RunText(user: string, code: int): string {
    STDOUT_BEGIN_MARKER + "\n" + user + STDOUT_END_MARKER + "\n" + ExitMarker(code)
  }

  lemma RunAssembled(boot: string, begin: string, user: string, end: string, exit: string)
    ensures boot + begin + "\n" + user + end + "\n" + exit == boot + (begin + "\n" + user + end + "\n" + exit)
  {
  }

  lemma RunTextIs(user: string, code: int)
    ensures RunText(user, code)
         == "VISOR_STDOUT_BEGIN\n" + user + "VISOR_STDOUT_END\n\nVISOR_EXIT_CODE=" + PrintSigned(code) + "\n"
  {
    TextAssembled("VISOR_STDOUT_BEGIN", user, "VISOR_STDOUT_END", "VISOR_EXIT_CODE=", PrintSigned(code));
  }

  lemma TextAssembled(begin: string, user: string, end: string, exit: string, digits: string)
    ensures begin + "\n" + user + end + "\n" + ("\n" + (exit + digits) + "\n")
         == (begin + "\n") + user + (end + "\n\n" + exit) + digits + "\n"
  {
  }

  class Console {
    var text: string

    constructor (boot: string)
      ensures text == boot
    {
      text := boot;
    }

    /** `write_stdout_marker` */
    method WriteStdoutMarker(marker: string)
      modifies this
      ensures text == old(text) + marker + "\n"
    {
      text := text + marker + "\n";
    }

    /** `write_exit_marker`: each write call takes some part of what remains. */
    method WriteExitMarker(code: int)
      modifies this
      ensures text == old(text) + ExitMarker(code)
    {
      var remaining := ExitMarker(code);
      while remaining != ""
        invariant text + remaining == old(text) + ExitMarker(code)
        decreases |remaining|
      {
        var written: nat :| 1 <= written <= |remaining|;
        text := text + remaining[..written];
        remaining := remaining[written..];
      }
      assert text + "" == text;
    }

    /** The run mode of the guest's `run`, with what the user's command printed and how it ended. */
    method Run(user: string, code: int)
      modifies this
      ensures text == old(text) + RunText(user, code)
    {
      RunAssembled(text, STDOUT_BEGIN_MARKER, user, STDOUT_END_MARKER, ExitMarker(code));
      WriteStdoutMarker(STDOUT_BEGIN_MARKER);
      text := text + user;
      WriteStdoutMarker(STDOUT_END_MARKER);
      WriteExitMarker(code);
    }
  }

  // ── The host ────────────────────────────────────────────────────────

  /** The code on one line: after trimming, the marker and a 32-bit number. */
  function LineCode(line: string): Option<int> {
    var t := Trim(line);
    if EXIT_CODE_MARKER <= t then ParseSigned(t[|EXIT_CODE_MARKER|..], I32_MAX) else None
  }

  /** The code on the last line that has one, where codeOf reads a line. */
  function LastSome(codeOf: string -> Option<int>, lines: seq<string>): Option<int> {
    if lines == [] then None
    else
      var code := codeOf(lines[|lines| - 1]);
      if code.Some? then code else LastSome(codeOf, lines[..|lines| - 1])
  }

  function LastCode(lines: seq<string>): Option<int> {
    LastSome(LineCode, lines)
  }

  /** The longest run of hexadecimal digits at the start. */
  function HexPrefix(s: string): (r: string)
    ensures r <= s && AllHexDigits(r) && (|r| < |s| ==> !IsHexDigit(s[|r|]))
  {
    if s != "" && IsHexDigit(s[0]) then
      var r := HexPrefix(s[1..]);
      [s[0]] + r
    else ""
  }

  /** The exit code in a wait status: the status byte, or 128 and the signal. */
  function StatusCode(status: nat): int {
    if status % 128 == 0 then status / 256 % 256 else 128 + status % 128
  }

  /** `parse_kernel_panic_exit_code`: the digits between the first marker and the second one, if any. */
  function PanicCode(line: string): Option<int> {
    TrimmedPanicCode(Trim(line))
  }

  function TrimmedPanicCode(t: string): Option<int> {
    var first := Find(t, PANIC_EXIT_CODE_MARKER);
    if first.None? then None else StatusText(UpToMarker(t[first.value + |PANIC_EXIT_CODE_MARKER|..]))
  }

  function UpToMarker(s: string): string {
    var next := Find(s, PANIC_EXIT_CODE_MARKER);
    if next.Some? then s[..next.value] else s
  }

  function StatusText(s: string): Option<int> {
    var hex := HexPrefix(s);
    if hex == "" || HexValue(hex) > U32_MAX then None else Some(StatusCode(HexValue(hex)))
  }

  function LastPanicCode(lines: seq<string>): Option<int> {
    LastSome(PanicCode, lines)
  }

  /** `parse_exit_code` */
  function ParseExitCode(text: string): int {
    var lines := Lines(text);
    match LastCode(lines)
    case Some(code) => code
    case None => match LastPanicCode(lines) case Some(code) => code case None => 1
  }

  // ── The last code printed is the one read ───────────────────────────

  lemma {:induction false} LastSomeAppend(codeOf: string -> Option<int>, a: seq<string>, b: seq<string>)
    ensures LastSome(codeOf, a + b) == if LastSome(codeOf, b).Some? then LastSome(codeOf, b) else LastSome(codeOf, a)
    decreases |b|
  {
    if b == [] {
      assert a + b == a;
    } else {
      assert (a + b)[..|a + b| - 1] == a + b[..|b| - 1];
      LastSomeAppend(codeOf, a, b[..|b| - 1]);
    }
  }

  predicate Numeral(s: string) {
    s != "" && forall i | 0 <= i < |s| :: s[i] == '-' || IsDigit(s[i])
  }

  lemma PrintSignedNumeral(n: int)
    ensures Numeral(PrintSigned(n))
  {
    PrintParses(if n < 0 then -n else n);
  }

  lemma NumeralLine(digits: string)
    requires Numeral(digits)
    ensures Plain(EXIT_CODE_MARKER + digits) && LineCode(EXIT_CODE_MARKER + digits) == ParseSigned(digits, I32_MAX)
  {
    var line := EXIT_CODE_MARKER + digits;
    assert line[|line| - 1] == digits[|digits| - 1];
    TrimSolid(line);
    assert line[|EXIT_CODE_MARKER|..] == digits;
  }

  lemma MarkerLineCode(code: int)
    ensures LineCode(MarkerLine(code)) == if -0x8000_0000 <= code < 0x8000_0000 then Some(code) else None
    ensures Plain(MarkerLine(code))
  {
    PrintSignedNumeral(code);
    NumeralLine(PrintSigned(code));
    SignedRoundTrip(code, I32_MAX);
  }

  lemma MarkerApart(before: string, line: string, after: string)
    ensures before + ("\n" + line + "\n") + after == before + "\n" + line + "\n" + after
  {
  }

  /** The lines before the marker, whatever they are, then those after it. */
  lemma LastOfThree(before: seq<string>, line: string, after: seq<string>)
    requires LineCode(line).Some?
    ensures LastCode(before + ([line] + after)) == if LastCode(after).Some? then LastCode(after) else LineCode(line)
  {
    LastSomeAppend(LineCode, before, [line] + after);
    LastSomeAppend(LineCode, [line], after);
  }

  /**
   * Whatever the console shows before the exit marker, forged markers included and with or without a
   * final line feed, the host reads the marker's code, unless a later line carries a code of its own.
   */
  lemma ExitCodeRead(before: string, code: int, after: string)
    requires -0x8000_0000 <= code < 0x8000_0000
    ensures ParseExitCode(before + ExitMarker(code) + after)
         == match LastCode(Lines(after)) case Some(later) => later case None => code
  {
    MarkerApart(before, MarkerLine(code), after);
    MarkerLineCode(code);
    MiddleLine(before, MarkerLine(code), after);
    LastOfThree(Lines(before + "\n"), MarkerLine(code), Lines(after));
  }

  /** A whole run: the boot log, the run's text, and what the kernel prints on the way down. */
  lemma RunCodeRead(boot: string, user: string, code: int, after: string)
    requires -0x8000_0000 <= code < 0x8000_0000 && LastCode(Lines(after)) == None
    ensures ParseExitCode(boot + RunText(user, code) + after) == code
  {
    RunAssembled(boot, STDOUT_BEGIN_MARKER, user, STDOUT_END_MARKER, ExitMarker(code));
    ExitCodeRead(boot + STDOUT_BEGIN_MARKER + "\n" + user + STDOUT_END_MARKER + "\n", code, after);
  }

  // ── The kernel's last words ─────────────────────────────────────────

  /** Text around a solid part is trimmed on its own. */
  lemma TrimAround(before: string, solid: string, after: string) returns (b: string, a: string)
    requires solid != "" && !IsWhite(solid[0]) && !IsWhite(solid[|solid| - 1])
    ensures Trim(before + solid + after) == b + solid + a
    ensures |b| <= |before| && b == before[|before| - |b|..] && a <= after
  {
    var s := before + solid + after;
    var n := |before| + |solid|;
    assert s[|before|] == solid[0] && s[n - 1] == solid[|solid| - 1];
    var start := SkipWhite(s, 0);
    var end := SkipBack(s, start, |s|);
    assert start <= |before| && n <= end;
    b, a := before[start..], after[..end - n];
    SliceAround(before, solid, after, start, end);
  }

  lemma SliceAround(before: string, solid: string, after: string, start: nat, end: nat)
    requires start <= |before| && |before| + |solid| <= end <= |before| + |solid| + |after|
    ensures (before + solid + after)[start..end] == before[start..] + solid + after[..end - |before| - |solid|]
  {
  }

  lemma PanicMarkerBorderless()
    ensures Borderless(PANIC_EXIT_CODE_MARKER)
  {
    var m := PANIC_EXIT_CODE_MARKER;
    forall d | 0 < d < |m| ensures m[d..] != m[..|m| - d] {
      if d == 7 { assert m[d..][1] != m[..|m| - d][1]; } else { assert m[d..][0] != m[..|m| - d][0]; }
    }
  }

  lemma {:induction false} HexPrefixIs(hex: string, after: string)
    requires AllHexDigits(hex) && (after != "" ==> !IsHexDigit(after[0]))
    ensures HexPrefix(hex + after) == hex
    decreases |hex|
  {
    if hex == "" {
      assert hex + after == after;
    } else {
      assert (hex + after)[1..] == hex[1..] + after;
      HexPrefixIs(hex[1..], after);
      assert hex == [hex[0]] + hex[1..];
    }
  }

  /** The marker cannot start in the digits when white space or nothing follows them. */
  lemma DigitsBeforeMarker(hex: string, after: string, k: nat)
    requires |hex| < |PANIC_EXIT_CODE_MARKER| && (after != "" ==> IsWhite(after[0]))
    requires OccursAt(hex + after, PANIC_EXIT_CODE_MARKER, k)
    ensures k > |hex|
  {
    var s := hex + after;
    assert s[|hex|] == after[0];
    if k <= |hex| { MarkerSolid(s, k, |hex|); }
  }

  lemma MarkerSolid(s: string, k: nat, i: nat)
    requires OccursAt(s, PANIC_EXIT_CODE_MARKER, k) && k <= i < k + |PANIC_EXIT_CODE_MARKER|
    ensures !IsWhite(s[i])
  {
    var m := PANIC_EXIT_CODE_MARKER;
    assert s[i] == s[k..k + |m|][i - k] == m[i - k];
  }

  predicate Digits(hex: string) {
    AllHexDigits(hex) && |hex| < |PANIC_EXIT_CODE_MARKER|
  }

  predicate AtEnd(after: string) {
    after == "" || (IsWhite(after[0]) && !IsHexDigit(after[0]))
  }

  lemma StatusRead(hex: string, after: string)
    requires Digits(hex) && AtEnd(after)
    ensures HexPrefix(UpToMarker(hex + after)) == hex
  {
    var next := Find(hex + after, PANIC_EXIT_CODE_MARKER);
    if next.Some? {
      DigitsBeforeMarker(hex, after, next.value);
      var part := after[..next.value - |hex|];
      assert (hex + after)[..next.value] == hex + part;
      HexPrefixIs(hex, part);
    } else {
      HexPrefixIs(hex, after);
    }
  }

  lemma TrimmedDigitsRead(before: string, hex: string, after: string)
    requires Digits(hex) && AtEnd(after) && !Contains(before, PANIC_EXIT_CODE_MARKER)
    ensures TrimmedPanicCode(before + (PANIC_EXIT_CODE_MARKER + hex) + after) == StatusText(hex)
  {
    MarkerFound(before, hex, after);
    StatusRead(hex, after);
    HexPrefixAll(hex);
  }

  lemma HexPrefixAll(hex: string)
    requires AllHexDigits(hex)
    ensures HexPrefix(hex) == hex
  {
    HexPrefixIs(hex, "");
    assert hex + "" == hex;
  }

  lemma PanicDigitsRead(before: string, hex: string, after: string)
    requires Digits(hex) && AtEnd(after) && !Contains(before, PANIC_EXIT_CODE_MARKER)
    ensures PanicCode(before + (PANIC_EXIT_CODE_MARKER + hex) + after)
         == if hex == "" || HexValue(hex) > U32_MAX then None else Some(StatusCode(HexValue(hex)))
  {
    var solid := PANIC_EXIT_CODE_MARKER + hex;
    assert hex != "" ==> solid[|solid| - 1] == hex[|hex| - 1];
    HexPrefixAll(hex);
    var b, a := TrimAround(before, solid, after);
    SuffixAvoids(before, b);
    assert a != "" ==> a[0] == after[0];
    TrimmedDigitsRead(b, hex, a);
  }

  /** A wait status that the kernel prints behind its marker is read back as the code it stands for. */
  lemma PanicCodeRead(before: string, status: nat, after: string)
    requires status <= U32_MAX && !Contains(before, PANIC_EXIT_CODE_MARKER) && (after != "" ==> IsWhite(after[0]))
    ensures PanicCode(before + (PANIC_EXIT_CODE_MARKER + Hex(status, 8)) + after) == Some(StatusCode(status))
  {
    var hex := Hex(status, 8);
    WordFits(status);
    HexRoundTrip(status, 8);
    PanicDigitsRead(before, hex, after);
    HexPrefixAll(hex);
  }

  lemma MarkerFound(before: string, hex: string, after: string)
    requires !Contains(before, PANIC_EXIT_CODE_MARKER)
    ensures var m := PANIC_EXIT_CODE_MARKER;
            var t := before + (m + hex) + after;
            Find(t, m) == Some(|before|) && t[|before| + |m|..] == hex + after
  {
    var m := PANIC_EXIT_CODE_MARKER;
    PanicMarkerBorderless();
    FindBehind(before, m, hex + after);
    assert before + (m + hex) + after == before + m + (hex + after);
  }

  lemma SuffixAvoids(s: string, t: string)
    requires |t| <= |s| && t == s[|s| - |t|..] && !Contains(s, PANIC_EXIT_CODE_MARKER)
    ensures !Contains(t, PANIC_EXIT_CODE_MARKER)
  {
    var m := PANIC_EXIT_CODE_MARKER;
    forall k: nat ensures !OccursAt(t, m, k) {
      assert !OccursAt(s, m, |s| - |t| + k);
      assert k + |m| <= |t| ==> t[k..k + |m|] == s[|s| - |t| + k..|s| - |t| + k + |m|];
    }
  }

  /** What the wait status of a process says, whatever its other bits are: its exit code, or 128 and the
      signal that ended it. */
  lemma StatusMeaning(code: nat, signal: nat, flag: nat, rest: nat)
    requires code < 256 && 1 <= signal < 128 && flag < 2
    ensures StatusCode(rest * 65536 + code * 256 + flag * 128) == code
    ensures StatusCode(rest * 256 + flag * 128 + signal) == 128 + signal
  {
    Divides(rest * 512 + code * 2 + flag, 128, 0);
    Divides(rest * 256 + code, 256, flag * 128);
    Divides(rest, 256, code);
    Divides(rest * 2 + flag, 128, signal);
  }

  lemma Divides(q: nat, m: nat, r: nat)
    requires r < m
    ensures (q * m + r) % m == r && (q * m + r) / m == q
  {
    var d := (q * m + r) / m - q;
    assert d * m == r - (q * m + r) % m;
    assert d >= 1 ==> d * m >= m;
    assert d <= -1 ==> d * m <= 0 - m;
  }

  // ── Without an exit code ────────────────────────────────────────────

  /** The last line with a code decides; without one there is no code. */
  lemma {:induction false} LastSomeIs(codeOf: string -> Option<int>, lines: seq<string>, i: nat)
    requires i <= |lines| && forall j | i <= j < |lines| :: codeOf(lines[j]).None?
    ensures i == 0 ==> LastSome(codeOf, lines).None?
    ensures i > 0 && codeOf(lines[i - 1]).Some? ==> LastSome(codeOf, lines) == codeOf(lines[i - 1])
    decreases |lines|
  {
    if i < |lines| {
      LastSomeIs(codeOf, lines[..|lines| - 1], i);
    }
  }

  /** A text in which no line has an exit code is read as the code of its last panic line, and as 1 if it has none. */
  lemma PanicFallback(text: string, i: nat)
    requires forall line | line in Lines(text) :: LineCode(line).None?
    requires i <= |Lines(text)| && forall j | i <= j < |Lines(text)| :: PanicCode(Lines(text)[j]).None?
    ensures i == 0 ==> ParseExitCode(text) == 1
    ensures i > 0 && PanicCode(Lines(text)[i - 1]).Some? ==> Some(ParseExitCode(text)) == PanicCode(Lines(text)[i - 1])
  {
    LastSomeIs(LineCode, Lines(text), 0);
    LastSomeIs(PanicCode, Lines(text), i);
  }

  /** A guest that panics: the host reads the status the kernel printed last. */
  lemma PanicRead(before: string, words: string, status: nat, after: string)
    requires status <= U32_MAX && Plain(words + ("exitcode=0x" + Hex(status, 8)))
    requires !Contains(words, "exitcode=0x")
    requires forall line | line in Lines(before + "\n") + Lines(after) :: LineCode(line).None?
    requires LineCode(words + ("exitcode=0x" + Hex(status, 8))).None?
    requires forall line | line in Lines(after) :: PanicCode(line).None?
    ensures ParseExitCode(before + "\n" + (words + ("exitcode=0x" + Hex(status, 8))) + "\n" + after)
         == StatusCode(status)
  {
    var line := words + ("exitcode=0x" + Hex(status, 8));
    var text := before + "\n" + line + "\n" + after;
    PanicCodeRead(words, status, "");
    assert line + "" == line;
    MiddleLine(before, line, after);
    PanicFallback(text, |Lines(before + "\n")| + 1);
  }
}
