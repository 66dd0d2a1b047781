/** The user's output as the host extracts it from the serial console. */
module SerialStdout {
  import opened Serial
  import opened Strings
  import opened Text
  import opened Wrappers

  const VISOR_INIT_LOG_PREFIX := "visor-init:"

  // ── Line by line ────────────────────────────────────────────────────

  /** What a line in front of a closing marker contributes. */
  function Shown(before: string): string {
    var t := Trim(before);
    if t == "" || VISOR_INIT_LOG_PREFIX <= t then "" else t + "\n"
  }

  datatype Effect = Skip | Keep(shown: string) | Stop(shown: string)

  /** What a line does once capturing has begun. */
  function LineEffect(line: string): Effect {
    var t := Trim(line);
    var end, exit := Find(line, STDOUT_END_MARKER), Find(line, EXIT_CODE_MARKER);
    if t == STDOUT_BEGIN_MARKER then Skip
    else if end.Some? then Stop(Shown(line[..end.value]))
    else if exit.Some? then Stop(Shown(line[..exit.value]))
    else if VISOR_INIT_LOG_PREFIX <= t then Skip
    else Keep(t + "\n")
  }

  function Captured(lines: seq<string>): string {
    if lines == [] then "" else Then(LineEffect(lines[0]), Captured(lines[1..]))
  }

  /** What a line's effect leaves of what would follow. */
  function Then(effect: Effect, more: string): string {
    match effect
    case Skip => more
    case Keep(shown) => shown + more
    case Stop(shown) => shown
  }

  /** Nothing up to the first begin marker, then what is captured. */
  function Extracted(lines: seq<string>): string {
    if lines == [] then ""
    else if Trim(lines[0]) == STDOUT_BEGIN_MARKER then Captured(lines[1..])
    else Extracted(lines[1..])
  }

  /** `extract_marked_stdout` */
  method ExtractMarkedStdout(text: string) returns (result: string)
    ensures result == Extracted(Lines(text))
  {
    result := "";
    var capturing := false;
    var lines := Lines(text);
    for i := 0 to |lines|
      invariant !capturing ==> result == "" && Extracted(lines[i..]) == Extracted(lines)
      invariant capturing ==> result + Captured(lines[i..]) == Extracted(lines)
    {
      assert lines[i..][1..] == lines[i + 1..];
      var line := lines[i];
      var trimmed := Trim(line);
      if trimmed == STDOUT_BEGIN_MARKER {
        capturing := true;
        continue;
      }
      if !capturing { continue; }
      var end := Find(line, STDOUT_END_MARKER);
      if end.Some? {
        result := result + Shown(line[..end.value]);
        return;
      }
      var exit := Find(line, EXIT_CODE_MARKER);
      if exit.Some? {
        result := result + Shown(line[..exit.value]);
        return;
      }
      if VISOR_INIT_LOG_PREFIX <= trimmed { continue; }
      result := result + (trimmed + "\n");
    }
  }

  // ── The output as its trimmed lines ─────────────────────────────────

  function Rendered(line: string): string {
    Trim(line) + "\n"
  }

  function RenderedAll(lines: seq<string>): string {
    if lines == [] then "" else Rendered(lines[0]) + RenderedAll(lines[1..])
  }

  /** A last line without a line feed is dropped when it is blank. */
  function RenderedLast(last: string): string {
    if Trim(last) == "" then "" else Rendered(last)
  }

  /** A line that carries no marker and is no diagnostic of the guest's init. */
  ghost predicate Clean(line: string) {
    && Trim(line) != STDOUT_BEGIN_MARKER && !("visor-init:" <= Trim(line))
    && !Contains(line, STDOUT_END_MARKER) && !Contains(line, EXIT_CODE_MARKER)
  }

  ghost predicate AllClean(lines: seq<string>) {
    forall i | 0 <= i < |lines| :: Clean(lines[i])
  }

  /** The end marker follows an unterminated line directly, so only it and the diagnostics matter there. */
  ghost predicate CleanLast(last: string) {
    !Contains(last, STDOUT_END_MARKER) && !("visor-init:" <= Trim(last))
  }

  lemma ShownLength(line: string, k: nat, marker: string)
    requires OccursAt(line, marker, k) && marker != "" && !IsWhite(marker[0]) && !IsWhite(marker[|marker| - 1])
    ensures |Shown(line[..k])| < |Rendered(line)|
  {
    assert line == line[..k] + marker + line[k + |marker|..];
    TrimBefore(line[..k], marker, line[k + |marker|..]);
  }

  /** A clean line is kept as it is; any other one shows less than it would then. */
  lemma LineShows(line: string)
    ensures Clean(line) ==> LineEffect(line) == Keep(Rendered(line))
    ensures !Clean(line) ==>
              !LineEffect(line).Keep? && (LineEffect(line).Stop? ==> |LineEffect(line).shown| < |Rendered(line)|)
  {
    FindContains(line, STDOUT_END_MARKER);
    FindContains(line, EXIT_CODE_MARKER);
    var end, exit := Find(line, STDOUT_END_MARKER), Find(line, EXIT_CODE_MARKER);
    if end.Some? { ShownLength(line, end.value, STDOUT_END_MARKER); }
    if exit.Some? { ShownLength(line, exit.value, EXIT_CODE_MARKER); }
  }

  lemma CleanShows(line: string, more: string)
    requires Clean(line)
    ensures Then(LineEffect(line), more) == Rendered(line) + more
  {
    LineShows(line);
  }

  lemma UncleanShows(line: string, more: string)
    requires !Clean(line)
    ensures |Then(LineEffect(line), more)| < |Rendered(line)| + |more|
  {
    LineShows(line);
  }

  lemma CapturedCons(lines: seq<string>, tail: seq<string>)
    requires lines != []
    ensures Captured(lines + tail) == Then(LineEffect(lines[0]), Captured(lines[1..] + tail))
  {
    assert (lines + tail)[1..] == lines[1..] + tail;
  }

  /** In front of further lines, clean lines are captured whole. */
  lemma {:induction false} CapturedClean(lines: seq<string>, tail: seq<string>)
    requires AllClean(lines)
    ensures Captured(lines + tail) == RenderedAll(lines) + Captured(tail)
    decreases |lines|
  {
    if lines == [] {
      assert lines + tail == tail;
    } else {
      CapturedCons(lines, tail);
      CleanCons(lines);
      CleanShows(lines[0], Captured(lines[1..] + tail));
      CapturedClean(lines[1..], tail);
      Associates(Rendered(lines[0]), RenderedAll(lines[1..]), Captured(tail));
    }
  }

  /** Nothing is captured twice, and lines that are not clean lose something. */
  lemma {:induction false} CapturedLength(lines: seq<string>, tail: seq<string>)
    ensures |Captured(lines + tail)| <= |RenderedAll(lines)| + |Captured(tail)|
    ensures !AllClean(lines) ==> |Captured(lines + tail)| < |RenderedAll(lines)| + |Captured(tail)|
    decreases |lines|
  {
    if lines == [] {
      assert lines + tail == tail;
    } else {
      var more := Captured(lines[1..] + tail);
      CapturedCons(lines, tail);
      CapturedLength(lines[1..], tail);
      CleanCons(lines);
      if Clean(lines[0]) { CleanShows(lines[0], more); } else { UncleanShows(lines[0], more); }
    }
  }

  lemma CleanCons(lines: seq<string>)
    requires lines != []
    ensures AllClean(lines) <==> Clean(lines[0]) && AllClean(lines[1..])
  {
    assert forall i | 0 < i < |lines| :: lines[i] == lines[1..][i - 1];
  }

  lemma EndMarkerBorderless()
    ensures Borderless(STDOUT_END_MARKER)
  {
    var m := STDOUT_END_MARKER;
    forall d | 0 < d < |m| ensures m[d..] != m[..|m| - d] {
      assert m[d..][0] != m[..|m| - d][0];
    }
  }

  function EndLine(last: string): string {
    last + STDOUT_END_MARKER
  }

  lemma EndLineIsNoBegin(last: string)
    ensures Trim(EndLine(last)) != STDOUT_BEGIN_MARKER
  {
    var line, m := EndLine(last), STDOUT_END_MARKER;
    assert line[|line| - 1] == m[|m| - 1] == 'D' && line[|last|] == m[0] == 'V';
    var start := SkipWhite(line, 0);
    assert start <= |last| && SkipBack(line, start, |line|) == |line|;
    assert Trim(line)[|Trim(line)| - 1] == 'D' && STDOUT_BEGIN_MARKER[|STDOUT_BEGIN_MARKER| - 1] == 'N';
  }

  lemma EarlyEndShows(last: string)
    requires Contains(last, STDOUT_END_MARKER)
    ensures LineEffect(EndLine(last)).Stop? && |LineEffect(EndLine(last)).shown| < |RenderedLast(last)|
  {
    var m := STDOUT_END_MARKER;
    EndLineIsNoBegin(last);
    var k := EarlyMarker(last);
    ShownLength(last, k, m);
    assert EndLine(last)[..k] == last[..k];
    MarkedNotBlank(last, k);
  }

  lemma MarkedNotBlank(last: string, k: nat)
    requires OccursAt(last, STDOUT_END_MARKER, k)
    ensures RenderedLast(last) == Rendered(last)
  {
    TrimBlank(last);
    assert last[k] == last[k..k + |STDOUT_END_MARKER|][0] == 'V';
  }

  lemma LastShows(last: string)
    requires !Contains(last, STDOUT_END_MARKER)
    ensures LineEffect(EndLine(last)) == Stop(Shown(last))
  {
    var m := STDOUT_END_MARKER;
    EndLineIsNoBegin(last);
    EndMarkerBorderless();
    FindBehind(last, m, "");
    assert last + m + "" == EndLine(last) && EndLine(last)[..|last|] == last;
  }

  /** The line that the end marker closes: what is shown of it, and when that is all of it. */
  lemma EndLineShows(last: string)
    ensures LineEffect(EndLine(last)).Stop?
    ensures LineEffect(EndLine(last)).shown == RenderedLast(last) <==> CleanLast(last)
    ensures |LineEffect(EndLine(last)).shown| <= |RenderedLast(last)|
  {
    if Contains(last, STDOUT_END_MARKER) { EarlyEndShows(last); } else { LastShows(last); }
  }

  lemma EarlyMarker(last: string) returns (k: nat)
    requires Contains(last, STDOUT_END_MARKER)
    ensures OccursAt(last, STDOUT_END_MARKER, k) && Find(EndLine(last), STDOUT_END_MARKER) == Some(k)
  {
    var m := STDOUT_END_MARKER;
    FindContains(last, m);
    k := Find(last, m).value;
    assert EndLine(last)[k..k + |m|] == last[k..k + |m|];
    forall j | 0 <= j < k ensures !OccursAt(EndLine(last), m, j) {
      assert !OccursAt(last, m, j) && EndLine(last)[j..j + |m|] == last[j..j + |m|];
    }
    FindIs(EndLine(last), m, k);
  }

  // ── A whole run ─────────────────────────────────────────────────────

  /** The terminated lines of an output, and what follows the last line feed. */
  function BodyLength(user: string): (n: nat)
    ensures n <= |user| && Ended(user[..n]) && '\n' !in user[n..]
  {
    if user == "" || user[|user| - 1] == '\n' then |user| else BodyLength(user[..|user| - 1])
  }

  function Body(user: string): string {
    user[..BodyLength(user)]
  }

  function Last(user: string): string {
    user[BodyLength(user)..]
  }

  // ── The boot log ────────────────────────────────────────────────────

  /** Where reading some lines leads: still looking for the begin marker, or capturing, or at an
      end, having captured the text shown. */
  datatype Progress = Searching | Capturing(shown: string) | Stopped(shown: string)

  function Shows(text: string, p: Progress): Progress {
    match p
    case Searching => Searching
    case Capturing(shown) => Capturing(text + shown)
    case Stopped(shown) => Stopped(text + shown)
  }

  function CapturedFrom(lines: seq<string>): Progress {
    if lines == [] then Capturing("")
    else match LineEffect(lines[0])
      case Skip => CapturedFrom(lines[1..])
      case Keep(shown) => Shows(shown, CapturedFrom(lines[1..]))
      case Stop(shown) => Stopped(shown)
  }

  function ReadFrom(lines: seq<string>): Progress {
    if lines == [] then Searching
    else if Trim(lines[0]) == STDOUT_BEGIN_MARKER then CapturedFrom(lines[1..])
    else ReadFrom(lines[1..])
  }

  function Continued(p: Progress, searching: string, capturing: string): string {
    match p
    case Searching => searching
    case Capturing(shown) => shown + capturing
    case Stopped(shown) => shown
  }

  lemma ShowsContinued(text: string, p: Progress, capturing: string)
    requires !p.Searching?
    ensures Continued(Shows(text, p), "", capturing) == text + Continued(p, "", capturing)
  {
    if p.Capturing? { Associates(text, p.shown, capturing); }
  }

  lemma {:induction false} CapturedGoesOn(lines: seq<string>, tail: seq<string>)
    ensures !CapturedFrom(lines).Searching?
    ensures Captured(lines + tail) == Continued(CapturedFrom(lines), "", Captured(tail))
    decreases |lines|
  {
    if lines == [] {
      assert lines + tail == tail;
    } else {
      CapturedCons(lines, tail);
      CapturedGoesOn(lines[1..], tail);
      match LineEffect(lines[0])
      case Keep(shown) => ShowsContinued(shown, CapturedFrom(lines[1..]), Captured(tail));
      case _ =>
    }
  }

  /** Whatever the lines, what follows is read from where they lead. */
  lemma {:induction false} ExtractedGoesOn(lines: seq<string>, tail: seq<string>)
    ensures Extracted(lines + tail) == Continued(ReadFrom(lines), Extracted(tail), Captured(tail))
    decreases |lines|
  {
    if lines == [] {
      assert lines + tail == tail;
    } else {
      assert (lines + tail)[1..] == lines[1..] + tail;
      CapturedGoesOn(lines[1..], tail);
      ExtractedGoesOn(lines[1..], tail);
    }
  }

  /** A run's begin marker follows an unterminated line of the boot log directly. */
  function BeginLine(last: string): string {
    last + STDOUT_BEGIN_MARKER
  }

  function BootLines(boot: string): seq<string> {
    Lines(Body(boot)) + [BeginLine(Last(boot))]
  }

  /** The boot log leads to capturing, with nothing captured yet. */
  predicate Ready(boot: string) {
    ReadFrom(BootLines(boot)) == Capturing("")
  }

  predicate NoBegin(lines: seq<string>) {
    forall i | 0 <= i < |lines| :: Trim(lines[i]) != STDOUT_BEGIN_MARKER
  }

  lemma {:induction false} SkipBoot(boot: seq<string>, line: string)
    requires NoBegin(boot) && Trim(line) == STDOUT_BEGIN_MARKER
    ensures ReadFrom(boot + [line]) == Capturing("")
    decreases |boot|
  {
    if boot == [] {
      assert boot + [line] == [line];
    } else {
      assert (boot + [line])[1..] == boot[1..] + [line];
      SkipBoot(boot[1..], line);
    }
  }

  lemma BeginLinePlain(last: string)
    requires '\n' !in last
    ensures Plain(BeginLine(last))
  {
    var line, m := BeginLine(last), STDOUT_BEGIN_MARKER;
    assert line[|line| - 1] == m[|m| - 1];
  }

  lemma EndLinePlain(last: string)
    requires '\n' !in last
    ensures Plain(EndLine(last))
  {
    var line, m := EndLine(last), STDOUT_END_MARKER;
    assert line[|line| - 1] == m[|m| - 1];
  }

  /** The lines of a run's text. */
  lemma RunLines(boot: string, body: string, last: string, rest: string)
    requires Ended(body) && '\n' !in last
    ensures Lines(Body(boot) + ((BeginLine(Last(boot)) + "\n") + (body + ((EndLine(last) + "\n") + rest))))
         == BootLines(boot) + (Lines(body) + ([EndLine(last)] + Lines(rest)))
  {
    var begin, tail := BeginLine(Last(boot)), body + ((EndLine(last) + "\n") + rest);
    BeginLinePlain(Last(boot));
    EndLinePlain(last);
    OneLine(begin);
    OneLine(EndLine(last));
    LinesAppend(EndLine(last) + "\n", rest);
    LinesAppend(body, (EndLine(last) + "\n") + rest);
    LinesAppend(begin + "\n", tail);
    LinesAppend(Body(boot), (begin + "\n") + tail);
  }

  lemma CapturedTail(last: string, rest: seq<string>)
    ensures LineEffect(EndLine(last)).Stop? && Captured([EndLine(last)] + rest) == LineEffect(EndLine(last)).shown
  {
    EndLineShows(last);
  }

  /** Between the markers, the output comes back as its trimmed lines exactly when all of them are clean. */
  lemma CapturedIs(body: seq<string>, last: string, rest: seq<string>)
    ensures Captured(body + ([EndLine(last)] + rest)) == RenderedAll(body) + RenderedLast(last)
       <==> AllClean(body) && CleanLast(last)
  {
    CapturedTail(last, rest);
    EndLineShows(last);
    CapturedLength(body, [EndLine(last)] + rest);
    if AllClean(body) {
      CapturedClean(body, [EndLine(last)] + rest);
      SamePrefix(RenderedAll(body), LineEffect(EndLine(last)).shown, RenderedLast(last));
    }
  }

  lemma SamePrefix(a: string, b: string, c: string)
    ensures a + b == a + c <==> b == c
  {
    assert (a + b)[|a|..] == b && (a + c)[|a|..] == c;
  }

  lemma RunPieces(boot: string, user: string, code: int, after: string)
    ensures boot + RunText(user, code) + after
         == Body(boot) + ((BeginLine(Last(boot)) + "\n") +
                          (Body(user) + ((EndLine(Last(user)) + "\n") + (ExitMarker(code) + after))))
  {
    assert boot == Body(boot) + Last(boot) && user == Body(user) + Last(user);
    var begin, end, exit := STDOUT_BEGIN_MARKER, STDOUT_END_MARKER, ExitMarker(code);
    Reassociate(Body(boot), Last(boot), begin, Body(user), Last(user), end, exit, after);
  }

  lemma Reassociate(boot: string, part: string, begin: string, body: string, last: string, end: string,
                    exit: string, after: string)
    ensures boot + part + (begin + "\n" + (body + last) + end + "\n" + exit) + after
         == boot + (((part + begin) + "\n") + (body + (((last + end) + "\n") + (exit + after))))
  {
  }

  /** The lines of the user's output and of what follows it, behind the begin marker. */
  function Following(user: string, code: int, after: string): seq<string> {
    Lines(Body(user)) + ([EndLine(Last(user))] + Lines(ExitMarker(code) + after))
  }

  function HostReads(boot: string, user: string, code: int, after: string): string {
    Extracted(Lines(boot + RunText(user, code) + after))
  }

  /** What is read of any run, after any boot log. */
  lemma RunRead(boot: string, user: string, code: int, after: string)
    ensures var tail := Following(user, code, after);
            HostReads(boot, user, code, after) == Continued(ReadFrom(BootLines(boot)), Extracted(tail), Captured(tail))
  {
    RunPieces(boot, user, code, after);
    RunLines(boot, Body(user), Last(user), ExitMarker(code) + after);
    ExtractedGoesOn(BootLines(boot), Following(user, code, after));
  }

  /** The output as its trimmed lines; only a blank unterminated last one is dropped. */
  function OutputOf(user: string): string {
    RenderedAll(Lines(Body(user))) + RenderedLast(Last(user))
  }

  /** No marker and no diagnostic of the guest's init of its own. */
  ghost predicate CleanOutput(user: string) {
    AllClean(Lines(Body(user))) && CleanLast(Last(user))
  }

  /** After a boot log that leads to capturing, the host extracts the user's output as its
      trimmed lines, for every run, exactly when the output is clean. */
  lemma StdoutRead(boot: string, user: string, code: int, after: string)
    requires Ready(boot)
    ensures HostReads(boot, user, code, after) == OutputOf(user) <==> CleanOutput(user)
  {
    RunRead(boot, user, code, after);
    CapturedIs(Lines(Body(user)), Last(user), Lines(ExitMarker(code) + after));
    assert "" + Captured(Following(user, code, after)) == Captured(Following(user, code, after));
  }

  ghost predicate AlwaysRead(boot: string) {
    forall user: string, code: int, after: string | CleanOutput(user) ::
      HostReads(boot, user, code, after) == OutputOf(user)
  }

  lemma NoOutput()
    ensures CleanOutput("") && OutputOf("") == "" && Following("", 0, "") == [EndLine("")] + Lines(ExitMarker(0) + "")
  {
    assert Lines("") == [];
  }

  lemma OneCharacter()
    ensures CleanOutput("x\n") && OutputOf("x\n") == "x\n"
    ensures Following("x\n", 0, "") == ["x"] + ([EndLine("")] + Lines(ExitMarker(0) + ""))
    ensures Trim("x") != STDOUT_BEGIN_MARKER
  {
    assert "x" + "\n" == "x\n";
    OneLine("x");
    TrimSolid("x");
    assert Body("x\n") == "x\n" && Last("x\n") == "";
    assert ["x"][1..] == [] && Rendered("x") + "" == "x\n";
    assert Clean("x");
  }

  /** And only after such a boot log: after any other, some clean output is not extracted. */
  lemma BootDecides(boot: string)
    ensures Ready(boot) <==> AlwaysRead(boot)
  {
    if Ready(boot) {
      forall user: string, code: int, after: string | CleanOutput(user)
        ensures HostReads(boot, user, code, after) == OutputOf(user)
      {
        StdoutRead(boot, user, code, after);
      }
    } else {
      BootSpoils(boot);
    }
  }

  lemma BootSpoils(boot: string)
    requires !Ready(boot)
    ensures !AlwaysRead(boot)
  {
    var end := [EndLine("")] + Lines(ExitMarker(0) + "");
    NoOutput();
    OneCharacter();
    RunRead(boot, "", 0, "");
    RunRead(boot, "x\n", 0, "");
    CapturedIs([], "", Lines(ExitMarker(0) + ""));
    assert [] + end == end && (["x"] + end)[1..] == end;
    assert HostReads(boot, "", 0, "") == OutputOf("") ==> HostReads(boot, "x\n", 0, "") != OutputOf("x\n");
  }

  lemma {:induction false} NeverBegins(lines: seq<string>)
    requires NoBegin(lines)
    ensures ReadFrom(lines) == Searching
    decreases |lines|
  {
    if lines != [] { NeverBegins(lines[1..]); }
  }

  /** The marker is seen behind what only blanks precede on its line. */
  lemma BeginLineTrimmed(last: string)
    ensures Trim(BeginLine(last)) == STDOUT_BEGIN_MARKER <==> Blank(last)
  {
    var line, m := BeginLine(last), STDOUT_BEGIN_MARKER;
    TrimBlank(last);
    TrimBefore(last, m, "");
    assert last + m + "" == line;
    if Blank(last) {
      assert line[..|last|] == last && line[|line|..] == "" && line[|last|..] == m;
      assert line[|last|] == m[0] && line[|line| - 1] == m[|m| - 1];
      TrimIs(line, |last|, |line|);
    }
  }

  /** After a boot log whose lines are not the marker, clean output is always read if and only if
      what follows its last line feed is blank. */
  lemma OrdinaryBoot(boot: string)
    requires NoBegin(Lines(Body(boot)))
    ensures AlwaysRead(boot) <==> Blank(Last(boot))
  {
    BootDecides(boot);
    BeginLineTrimmed(Last(boot));
    if Blank(Last(boot)) {
      SkipBoot(Lines(Body(boot)), BeginLine(Last(boot)));
    } else {
      NeverBegins(BootLines(boot));
    }
  }
}
