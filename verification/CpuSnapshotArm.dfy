/** The saved CPU state of a macOS guest: registers as decimal JSON fields. */
module CpuSnapshotArm {
  import opened Decimal
  import opened Json
  import opened Strings
  import opened Text
  import opened Numbers
  import opened Wrappers

  const X_COUNT := 31

  /** The field names in the order they are written. */
  const NAMES: seq<string> := [
    "regs", "x", "sp", "pc", "cpsr", "fpcr", "fpsr", "sregs",
    "sctlr_el1", "ttbr0_el1", "ttbr1_el1", "tcr_el1", "mair_el1", "vbar_el1", "spsr_el1", "elr_el1", "sp_el0",
    "sp_el1", "esr_el1", "far_el1", "par_el1", "cpacr_el1", "cntkctl_el1", "cntv_ctl_el0", "cntv_cval_el0",
    "tpidr_el0", "tpidrro_el0", "tpidr_el1", "contextidr_el1", "amair_el1", "afsr0_el1", "afsr1_el1", "midr_el1",
    "mpidr_el1"]

  const REG_COUNT := 5
  const SREG_COUNT := 26
  const NAME_COUNT := 34

  /** The general registers, then the other registers and the special ones in the order of their names. */
  datatype Cpu = Cpu(x: seq<nat>, regs: seq<nat>, sregs: seq<nat>)

  predicate AllU64(values: seq<nat>) {
    forall i | 0 <= i < |values| :: values[i] <= U64_MAX
  }

  predicate Valid(cpu: Cpu) {
    && |cpu.x| == 31 && |cpu.regs| == REG_COUNT && |cpu.sregs| == SREG_COUNT
    && AllU64(cpu.x) && AllU64(cpu.regs) && AllU64(cpu.sregs)
  }

  // ── The text ────────────────────────────────────────────────────────

  /** A quoted name and what follows it up to the next one. */
  datatype Field = Field(name: string, tail: string)

  function FieldText(f: Field): string {
    Quoted(f.name) + f.tail
  }

  function FieldsText(fs: seq<Field>): string {
    if fs == [] then "{" else FieldsText(fs[..|fs| - 1]) + FieldText(fs[|fs| - 1])
  }

  function Csv(values: seq<nat>): string {
    if values == [] then ""
    else if |values| == 1 then Print(values[0])
    else Csv(values[..|values| - 1]) + "," + Print(values[|values| - 1])
  }

  /** Named values; the last one is followed by what closes the object. */
  function ValueFields(names: seq<string>, values: seq<nat>, close: string): seq<Field>
    requires |names| == |values|
  {
    seq(|names|, i requires 0 <= i < |names| =>
      Field(names[i], ":" + Print(values[i]) + (if i < |names| - 1 then "," else close)))
  }

  /** The fields under their names: two objects, the first one opening with the array. */
  function Fields(names: seq<string>, cpu: Cpu): seq<Field>
    requires |names| == NAME_COUNT && Valid(cpu)
  {
    [Field(names[0], ":{"), Field(names[1], ":[" + Csv(cpu.x) + "],")] + ValueFields(names[2..7], cpu.regs, "},")
    + [Field(names[7], ":{")] + ValueFields(names[8..], cpu.sregs, "}}")
  }

  // ── Reading ─────────────────────────────────────────────────────────

  datatype SnapshotError = MissingField | BadValue | UnterminatedArray | LengthMismatch

  /** The digits at the start. */
  function DigitPrefix(s: string): (r: string)
    ensures r <= s && AllDigits(r) && (|r| < |s| ==> !IsDigit(s[|r|]))
  {
    if s != "" && IsDigit(s[0]) then
      var r := DigitPrefix(s[1..]);
      [s[0]] + r
    else ""
  }

  /** `parse_u64` */
  function ParseU64(json: string, field: string): Result<nat, SnapshotError> {
    var pattern := Pattern(field, "");
    var found := Find(json, pattern);
    if found.None? then Err(MissingField)
    else
      var rest := json[found.value + |pattern|..];
      var value := ParseUnsigned(DigitPrefix(rest[SkipWhite(rest, 0)..]), U64_MAX);
      if value.None? then Err(BadValue) else Ok(value.value)
  }

  /** The texts between commas. */
  function SplitCommas(s: string): (r: seq<string>)
    ensures r != []
  {
    if s == "" then [""]
    else if s[0] == ',' then [""] + SplitCommas(s[1..])
    else
      var rest := SplitCommas(s[1..]);
      [[s[0]] + rest[0]] + rest[1..]
  }

  /** All values, or the first error. */
  function Collect(results: seq<Result<nat, SnapshotError>>): Result<seq<nat>, SnapshotError> {
    if results == [] then Ok([])
    else
      var init, last := Collect(results[..|results| - 1]), results[|results| - 1];
      if init.Err? then init else if last.Err? then Err(last.error) else Ok(init.value + [last.value])
  }

  function ParseElement(text: string): Result<nat, SnapshotError> {
    var value := ParseUnsigned(Trim(text), U64_MAX);
    if value.None? then Err(BadValue) else Ok(value.value)
  }

  function ParseAll(texts: seq<string>): Result<seq<nat>, SnapshotError> {
    Collect(seq(|texts|, i requires 0 <= i < |texts| => ParseElement(texts[i])))
  }

  /** `parse_u64_array` */
  function ParseU64Array(json: string, field: string, len: nat): Result<seq<nat>, SnapshotError> {
    var pattern := Pattern(field, "[");
    var found := Find(json, pattern);
    if found.None? then Err(MissingField)
    else
      var rest := json[found.value + |pattern|..];
      if ']' !in rest then Err(UnterminatedArray)
      else
        var values := ParseAll(SplitCommas(rest[..FirstIndex(rest, ']')]));
        if values.Err? then values else if |values.value| != len then Err(LengthMismatch) else values
  }

  function ReadFields(json: string, names: seq<string>): Result<seq<nat>, SnapshotError> {
    Collect(seq(|names|, i requires 0 <= i < |names| => ParseU64(json, names[i])))
  }

  /** `deserialize_cpu_state` */
  function Deserialize(names: seq<string>, json: string): Result<Cpu, SnapshotError>
    requires |names| == NAME_COUNT
  {
    var x := ParseU64Array(json, names[1], X_COUNT);
    var regs, sregs := ReadFields(json, names[2..7]), ReadFields(json, names[8..]);
    if x.Err? then Err(x.error)
    else if regs.Err? then Err(regs.error)
    else if sregs.Err? then Err(sregs.error)
    else Ok(Cpu(x.value, regs.value, sregs.value))
  }

  // ── Writing ─────────────────────────────────────────────────────────

  method WriteArray(values: seq<nat>) returns (s: string)
    ensures s == Csv(values)
  {
    s := "";
    for i := 0 to |values|
      invariant s == Csv(values[..i])
    {
      assert values[..i + 1][..i] == values[..i];
      if i > 0 { s := s + ","; }
      s := s + Print(values[i]);
    }
    assert values[..|values|] == values;
  }

  /** The named values of one object. */
  method WriteValues(names: seq<string>, values: seq<nat>, close: string) returns (s: string)
    requires |names| == |values|
    ensures s == Tail(ValueFields(names, values, close))
  {
    s := "";
    ghost var fs := ValueFields(names, values, close);
    for i := 0 to |names|
      invariant s == Tail(fs[..i])
    {
      assert fs[..i + 1][..i] == fs[..i];
      s := s + (Quoted(names[i]) + (":" + Print(values[i]) + (if i < |names| - 1 then "," else close)));
    }
    assert fs[..|names|] == fs;
  }

  /** Fields without the opening brace. */
  function Tail(fs: seq<Field>): string {
    if fs == [] then "" else Tail(fs[..|fs| - 1]) + FieldText(fs[|fs| - 1])
  }

  lemma {:induction false} TextAppend(fs: seq<Field>, gs: seq<Field>)
    ensures FieldsText(fs + gs) == FieldsText(fs) + Tail(gs)
    decreases |gs|
  {
    if gs == [] {
      assert fs + gs == fs && FieldsText(fs) + "" == FieldsText(fs);
    } else {
      var n := |gs| - 1;
      assert (fs + gs)[..|fs| + n] == fs + gs[..n];
      TextAppend(fs, gs[..n]);
      Associates(FieldsText(fs), Tail(gs[..n]), FieldText(gs[n]));
    }
  }

  /** `serialize_cpu_state` */
  method Serialize(names: seq<string>, cpu: Cpu) returns (s: string)
    requires |names| == NAME_COUNT && Valid(cpu)
    ensures s == FieldsText(Fields(names, cpu))
  {
    var x := WriteArray(cpu.x);
    s := "{" + (Quoted(names[0]) + ":{");
    s := s + (Quoted(names[1]) + (":[" + x + "],"));
    var regs := WriteValues(names[2..7], cpu.regs, "},");
    s := s + regs;
    s := s + (Quoted(names[7]) + ":{");
    var sregs := WriteValues(names[8..], cpu.sregs, "}}");
    s := s + sregs;
    FieldsAssemble(Field(names[0], ":{"), Field(names[1], ":[" + x + "],"), ValueFields(names[2..7], cpu.regs, "},"),
                   Field(names[7], ":{"), ValueFields(names[8..], cpu.sregs, "}}"));
  }

  lemma FieldsAssemble(f: Field, g: Field, fs: seq<Field>, h: Field, hs: seq<Field>)
    ensures FieldsText([f, g] + fs + [h] + hs) == "{" + FieldText(f) + FieldText(g) + Tail(fs) + FieldText(h) + Tail(hs)
  {
    TextAppend([f, g] + fs + [h], hs);
    TextAppend([f, g] + fs, [h]);
    TextAppend([f, g], fs);
    assert [f, g][..1] == [f] && [h][..0] == [] && [f][..0] == [];
    assert Tail([h]) == FieldText(h);
    assert FieldsText([f]) == "{" + FieldText(f);
    assert FieldsText([f, g]) == FieldsText([f]) + FieldText(g);
  }

  // ── Fields of a text ────────────────────────────────────────────────

  predicate WellFormed(f: Field) {
    FieldName(f.name) && f.tail != "" && f.tail[0] == ':' && QuoteFree(f.tail)
  }

  predicate Distinct(fs: seq<Field>) {
    forall i, j | 0 <= i < j < |fs| :: fs[i].name != fs[j].name
  }

  predicate AllWellFormed(fs: seq<Field>) {
    forall i | 0 <= i < |fs| :: WellFormed(fs[i])
  }

  function Segments(fs: seq<Field>): (r: seq<string>)
    ensures |r| == 2 * |fs| + 1
  {
    if fs == [] then ["{"] else Segments(fs[..|fs| - 1]) + [fs[|fs| - 1].name, fs[|fs| - 1].tail]
  }

  lemma JoinPair(segs: seq<string>, name: string, tail: string)
    requires segs != []
    ensures JoinQuotes(segs + [name, tail]) == JoinQuotes(segs) + (Quoted(name) + tail)
  {
    assert segs + [name, tail] == segs + [name] + [tail];
    JoinSnoc(segs, name);
    JoinSnoc(segs + [name], tail);
  }

  lemma {:induction false} SegmentsJoin(fs: seq<Field>)
    ensures JoinQuotes(Segments(fs)) == FieldsText(fs)
    decreases |fs|
  {
    if fs != [] {
      var init, last := fs[..|fs| - 1], fs[|fs| - 1];
      SegmentsJoin(init);
      JoinPair(Segments(init), last.name, last.tail);
    }
  }

  lemma {:induction false} SegmentIs(fs: seq<Field>, k: nat)
    requires k < |fs|
    ensures Segments(fs)[2 * k + 1] == fs[k].name && Segments(fs)[2 * k + 2] == fs[k].tail
    decreases |fs|
  {
    if k < |fs| - 1 { SegmentIs(fs[..|fs| - 1], k); }
  }

  lemma {:induction false} FirstSegment(fs: seq<Field>)
    ensures Segments(fs)[0] == "{"
    decreases |fs|
  {
    if fs != [] { FirstSegment(fs[..|fs| - 1]); }
  }

  /** No segment of well-formed fields is the name of another field. */
  lemma SegmentsApart(fs: seq<Field>, name: string, j: nat)
    requires AllWellFormed(fs) && FieldName(name) && 0 < j < |Segments(fs)|
    requires forall k | 0 <= k < |fs| :: fs[k].name != name
    ensures Segments(fs)[j] != name && QuoteFree(Segments(fs)[j])
  {
    var k := (j - 1) / 2;
    SegmentIs(fs, k);
    assert WellFormed(fs[k]);
    assert j == 2 * k + 1 || j == 2 * k + 2;
  }

  lemma {:induction false} TextAt(fs: seq<Field>, i: nat) returns (rest: string)
    requires i < |fs|
    ensures FieldsText(fs) == FieldsText(fs[..i]) + FieldText(fs[i]) + rest
    decreases |fs|
  {
    var n := |fs| - 1;
    if i == n {
      rest := "";
      assert FieldsText(fs[..i]) + FieldText(fs[i]) + "" == FieldsText(fs[..i]) + FieldText(fs[i]);
    } else {
      var r := TextAt(fs[..n], i);
      assert fs[..n][..i] == fs[..i];
      rest := r + FieldText(fs[n]);
      assert FieldsText(fs[..i]) + FieldText(fs[i]) + r + FieldText(fs[n])
          == FieldsText(fs[..i]) + FieldText(fs[i]) + rest;
    }
  }

  /** The first match of a field's pattern is followed by that text. */
  predicate Follows(json: string, field: string, opening: string, text: string) {
    var pattern := Pattern(field, opening);
    var found := Find(json, pattern);
    found.Some? && found.value + |pattern| <= |json| && json[found.value + |pattern|..] == text
  }

  /** The first match of a field's pattern is that field, and what follows is the rest of its tail. */
  lemma FieldAt(fs: seq<Field>, i: nat, opening: string, value: string) returns (rest: string)
    requires AllWellFormed(fs) && Distinct(fs) && i < |fs| && fs[i].tail == ":" + opening + value
    ensures Follows(FieldsText(fs), fs[i].name, opening, value + rest)
  {
    var before, name := fs[..i], fs[i].name;
    var segs := Segments(before);
    forall j | 0 < j < |segs| ensures segs[j] != name && QuoteFree(segs[j]) { SegmentsApart(before, name, j); }
    FirstSegment(before);
    SegmentsJoin(before);
    rest := TextAt(fs, i);
    assert WellFormed(fs[i]);
    FieldFound(segs, name, opening, value + rest);
    var pre, p := FieldsText(before), Pattern(name, opening);
    assert FieldsText(fs) == pre + p + (value + rest) by { FieldApart(pre, name, opening, value, rest); }
    assert (pre + p + (value + rest))[|pre| + |p|..] == value + rest;
  }

  lemma FieldApart(pre: string, name: string, opening: string, value: string, rest: string)
    ensures pre + (Quoted(name) + (":" + opening + value)) + rest == pre + Pattern(name, opening) + (value + rest)
  {
  }

  // ── Numbers ─────────────────────────────────────────────────────────

  lemma {:induction false} DigitPrefixIs(digits: string, after: string)
    requires AllDigits(digits) && (after != "" ==> !IsDigit(after[0]))
    ensures DigitPrefix(digits + after) == digits
    decreases |digits|
  {
    if digits == "" {
      assert digits + after == after;
    } else {
      assert (digits + after)[1..] == digits[1..] + after;
      DigitPrefixIs(digits[1..], after);
      assert digits == [digits[0]] + digits[1..];
    }
  }

  lemma {:induction false} SplitWhole(b: string)
    requires ',' !in b
    ensures SplitCommas(b) == [b]
    decreases |b|
  {
    if b != "" {
      SplitWhole(b[1..]);
      assert [b[0]] + b[1..] == b;
    }
  }

  lemma {:induction false} SplitSnoc(a: string, b: string)
    requires ',' !in b
    ensures SplitCommas(a + "," + b) == SplitCommas(a) + [b]
    decreases |a|
  {
    if a == "" {
      assert a + "," + b == "," + b && ("," + b)[1..] == b;
      SplitWhole(b);
    } else {
      assert (a + "," + b)[1..] == a[1..] + "," + b;
      SplitSnoc(a[1..], b);
    }
  }

  lemma PrintedNumber(v: nat)
    ensures Print(v) != "" && AllDigits(Print(v)) && IsDigit(Print(v)[0]) && Trim(Print(v)) == Print(v)
    ensures ',' !in Print(v) && ']' !in Print(v) && QuoteFree(Print(v))
  {
    PrintParses(v);
    TrimSolid(Print(v));
  }

  lemma {:induction false} CsvPlain(values: seq<nat>)
    ensures ']' !in Csv(values) && QuoteFree(Csv(values))
    decreases |values|
  {
    if values != [] {
      PrintedNumber(values[|values| - 1]);
      CsvPlain(values[..|values| - 1]);
    }
  }

  lemma {:induction false} AllCollected(results: seq<Result<nat, SnapshotError>>, values: seq<nat>)
    requires |results| == |values| && forall i | 0 <= i < |values| :: results[i] == Ok(values[i])
    ensures Collect(results) == Ok(values)
    decreases |values|
  {
    if values != [] {
      var n := |values| - 1;
      AllCollected(results[..n], values[..n]);
      assert values == values[..n] + [values[n]];
    }
  }

  function Printed(values: seq<nat>): seq<string> {
    seq(|values|, i requires 0 <= i < |values| => Print(values[i]))
  }

  /** The array text splits into its numbers. */
  lemma {:induction false} CsvSplits(values: seq<nat>)
    requires values != []
    ensures SplitCommas(Csv(values)) == Printed(values)
    decreases |values|
  {
    var init, last := values[..|values| - 1], values[|values| - 1];
    PrintedNumber(last);
    if |values| == 1 {
      SplitWhole(Print(last));
    } else {
      CsvSplits(init);
      SplitSnoc(Csv(init), Print(last));
      assert Printed(values) == Printed(init) + [Print(last)];
    }
  }

  lemma ElementParses(v: nat)
    requires v <= U64_MAX
    ensures ParseElement(Print(v)) == Ok(v)
  {
    PrintedNumber(v);
    UnsignedRoundTrip(v, U64_MAX);
  }

  lemma CsvParses(values: seq<nat>)
    requires values != [] && AllU64(values)
    ensures ParseAll(SplitCommas(Csv(values))) == Ok(values)
  {
    CsvSplits(values);
    var texts := Printed(values);
    var results := seq(|texts|, i requires 0 <= i < |texts| => ParseElement(texts[i]));
    forall i | 0 <= i < |values| ensures results[i] == Ok(values[i]) { ElementParses(values[i]); }
    AllCollected(results, values);
  }

  lemma NumberRead(json: string, field: string, v: nat, after: string)
    requires v <= U64_MAX && after != "" && !IsDigit(after[0]) && Follows(json, field, "", Print(v) + after)
    ensures ParseU64(json, field) == Ok(v)
  {
    PrintedNumber(v);
    UnsignedRoundTrip(v, U64_MAX);
    var rest := Print(v) + after;
    assert rest[0] == Print(v)[0] && rest[0..] == rest;
    assert SkipWhite(rest, 0) == 0;
    DigitPrefixIs(Print(v), after);
  }

  lemma ArrayRead(json: string, field: string, values: seq<nat>, after: string)
    requires values != [] && AllU64(values) && Follows(json, field, "[", Csv(values) + "]" + after)
    ensures ParseU64Array(json, field, |values|) == Ok(values)
  {
    var csv := Csv(values);
    var rest := csv + "]" + after;
    CsvPlain(values);
    assert rest[|csv|] == ']';
    FirstIndexIs(csv, ']', after);
    Pieces(csv, ']', after);
    CsvParses(values);
  }

  // ── A saved state ───────────────────────────────────────────────────

  lemma EarlyApart(i: nat, j: nat)
    requires i < j < 17
    ensures NAMES[i] != NAMES[j]
  {
  }

  lemma LateApart(i: nat, j: nat)
    requires 17 <= i < j < |NAMES|
    ensures NAMES[i] != NAMES[j]
  {
  }

  lemma FarApart(i: nat, j: nat)
    requires i < 17 <= j < |NAMES|
    ensures NAMES[i] != NAMES[j]
  {
  }

  /** The names are pairwise different. */
  lemma NamesApart(i: nat, j: nat)
    requires i < j < |NAMES|
    ensures NAMES[i] != NAMES[j]
  {
    if j < 17 { EarlyApart(i, j); } else if i < 17 { FarApart(i, j); } else { LateApart(i, j); }
  }

  lemma EarlyNames(i: nat)
    requires i < 17
    ensures FieldName(NAMES[i])
  {
  }

  lemma LateNames(i: nat)
    requires 17 <= i < |NAMES|
    ensures FieldName(NAMES[i])
  {
  }

  function Separator(i: int, n: int, close: string): string {
    if i < n - 1 then "," else close
  }

  /** The fields one by one. */
  lemma RegField(names: seq<string>, cpu: Cpu, k: nat)
    requires |names| == NAME_COUNT && Valid(cpu) && k < REG_COUNT
    ensures Fields(names, cpu)[k + 2] == Field(names[k + 2], ":" + Print(cpu.regs[k]) + Separator(k, 5, "},"))
  {
  }

  lemma SregField(names: seq<string>, cpu: Cpu, k: nat)
    requires |names| == NAME_COUNT && Valid(cpu) && k < SREG_COUNT
    ensures Fields(names, cpu)[k + 8] == Field(names[k + 8], ":" + Print(cpu.sregs[k]) + Separator(k, 26, "}}"))
  {
  }

  lemma OtherFields(names: seq<string>, cpu: Cpu)
    requires |names| == NAME_COUNT && Valid(cpu)
    ensures var fs := Fields(names, cpu);
            && |fs| == NAME_COUNT && fs[0] == Field(names[0], ":{") && fs[7] == Field(names[7], ":{")
            && fs[1] == Field(names[1], ":[" + Csv(cpu.x) + "],")
  {
  }

  lemma ValueTail(v: nat, separator: string)
    requires QuoteFree(separator)
    ensures var tail := ":" + Print(v) + separator; tail[0] == ':' && QuoteFree(tail)
  {
    PrintedNumber(v);
  }

  predicate GoodNames(names: seq<string>) {
    && |names| == NAME_COUNT
    && (forall i | 0 <= i < |names| :: FieldName(names[i]))
    && (forall i, j | 0 <= i < j < |names| :: names[i] != names[j])
  }

  lemma FieldWellFormed(names: seq<string>, cpu: Cpu, i: nat)
    requires GoodNames(names) && Valid(cpu) && i < NAME_COUNT
    ensures |Fields(names, cpu)| == NAME_COUNT
    ensures Fields(names, cpu)[i].name == names[i] && WellFormed(Fields(names, cpu)[i])
  {
    OtherFields(names, cpu);
    if i == 1 {
      CsvPlain(cpu.x);
    } else if 2 <= i < 7 {
      RegField(names, cpu, i - 2);
      ValueTail(cpu.regs[i - 2], Separator(i - 2, 5, "},"));
    } else if i > 7 {
      SregField(names, cpu, i - 8);
      ValueTail(cpu.sregs[i - 8], Separator(i - 8, 26, "}}"));
    }
  }

  lemma FieldsWellFormed(names: seq<string>, cpu: Cpu)
    requires GoodNames(names) && Valid(cpu)
    ensures |Fields(names, cpu)| == NAME_COUNT && AllWellFormed(Fields(names, cpu)) && Distinct(Fields(names, cpu))
  {
    var fs := Fields(names, cpu);
    OtherFields(names, cpu);
    forall i | 0 <= i < |fs| ensures WellFormed(fs[i]) && fs[i].name == names[i] { FieldWellFormed(names, cpu, i); }
  }

  /** A numeric field is found and read, whichever it is. */
  lemma ValueRead(fs: seq<Field>, i: nat, v: nat, separator: string)
    requires AllWellFormed(fs) && Distinct(fs) && i < |fs| && v <= U64_MAX
    requires fs[i].tail == ":" + Print(v) + separator && separator != "" && !IsDigit(separator[0])
    ensures ParseU64(FieldsText(fs), fs[i].name) == Ok(v)
  {
    OpenedPlain(Print(v), separator);
    var rest := FieldAt(fs, i, "", Print(v) + separator);
    Associates(Print(v), separator, rest);
    NumberRead(FieldsText(fs), fs[i].name, v, separator + rest);
  }

  lemma OpenedPlain(number: string, separator: string)
    ensures ":" + number + separator == ":" + "" + (number + separator)
  {
  }

  lemma OpenedArray(csv: string, rest: string)
    ensures ":[" + csv + "]," == ":" + "[" + (csv + "],") && csv + "]," + rest == csv + "]" + ("," + rest)
  {
  }

  lemma RegsRead(names: seq<string>, cpu: Cpu)
    requires GoodNames(names) && Valid(cpu)
    ensures ReadFields(FieldsText(Fields(names, cpu)), names[2..7]) == Ok(cpu.regs)
  {
    var fs, read := Fields(names, cpu), names[2..7];
    FieldsWellFormed(names, cpu);
    var results := seq(|read|, i requires 0 <= i < |read| => ParseU64(FieldsText(fs), read[i]));
    forall k | 0 <= k < |cpu.regs| ensures results[k] == Ok(cpu.regs[k]) {
      RegField(names, cpu, k);
      ValueRead(fs, k + 2, cpu.regs[k], Separator(k, 5, "},"));
    }
    AllCollected(results, cpu.regs);
  }

  lemma SregsRead(names: seq<string>, cpu: Cpu)
    requires GoodNames(names) && Valid(cpu)
    ensures ReadFields(FieldsText(Fields(names, cpu)), names[8..]) == Ok(cpu.sregs)
  {
    var fs, read := Fields(names, cpu), names[8..];
    FieldsWellFormed(names, cpu);
    var results := seq(|read|, i requires 0 <= i < |read| => ParseU64(FieldsText(fs), read[i]));
    forall k | 0 <= k < |cpu.sregs| ensures results[k] == Ok(cpu.sregs[k]) {
      SregField(names, cpu, k);
      ValueRead(fs, k + 8, cpu.sregs[k], Separator(k, 26, "}}"));
    }
    AllCollected(results, cpu.sregs);
  }

  lemma ArrayFieldRead(fs: seq<Field>, i: nat, values: seq<nat>)
    requires AllWellFormed(fs) && Distinct(fs) && i < |fs| && values != [] && AllU64(values)
    requires fs[i].tail == ":[" + Csv(values) + "],"
    ensures ParseU64Array(FieldsText(fs), fs[i].name, |values|) == Ok(values)
  {
    var csv := Csv(values);
    OpenedArray(csv, "");
    var rest := FieldAt(fs, i, "[", csv + "],");
    OpenedArray(csv, rest);
    ArrayRead(FieldsText(fs), fs[i].name, values, "," + rest);
  }

  /** Under any distinct names, a written state reads back. */
  lemma FieldsRoundTrip(names: seq<string>, cpu: Cpu)
    requires GoodNames(names) && Valid(cpu)
    ensures Deserialize(names, FieldsText(Fields(names, cpu))) == Ok(cpu)
  {
    FieldsWellFormed(names, cpu);
    OtherFields(names, cpu);
    ArrayFieldRead(Fields(names, cpu), 1, cpu.x);
    RegsRead(names, cpu);
    SregsRead(names, cpu);
  }

  lemma NamesAreGood()
    ensures GoodNames(NAMES)
  {
    forall i | 0 <= i < |NAMES| ensures FieldName(NAMES[i]) {
      if i < 17 { EarlyNames(i); } else { LateNames(i); }
    }
    forall i, j | 0 <= i < j < |NAMES| ensures NAMES[i] != NAMES[j] { NamesApart(i, j); }
  }

  /** A saved state comes back for all register values. */
  lemma SnapshotRoundTrip(cpu: Cpu)
    requires Valid(cpu)
    ensures Deserialize(NAMES, FieldsText(Fields(NAMES, cpu))) == Ok(cpu)
  {
    NamesAreGood();
    FieldsRoundTrip(NAMES, cpu);
  }
}
