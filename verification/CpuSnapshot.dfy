/** The saved CPU state of a Linux guest: register blocks as hexadecimal JSON fields. */
module CpuSnapshot {
  import opened Bytes
  import opened Hexadecimal
  import opened Json
  import opened Strings
  import opened Wrappers

  /** The bytes of `kvm_regs`, `kvm_sregs` and `kvm_fpu`. */
  datatype Cpu = Cpu(regs: seq<Byte>, sregs: seq<Byte>, fpu: seq<Byte>)

  /** The sizes of those structures on this machine. */
  datatype Layout = Layout(regs: nat, sregs: nat, fpu: nat)

  predicate Sized(cpu: Cpu, layout: Layout) {
    |cpu.regs| == layout.regs && |cpu.sregs| == layout.sregs && |cpu.fpu| == layout.fpu
  }

  datatype SnapshotError = MissingField | UnterminatedField | OddLength | BadDigits | SizeMismatch

  // ── Hexadecimal blocks ──────────────────────────────────────────────

  function Pair(b: Byte): string {
    Hex(b, 2)
  }

  function HexText(data: seq<Byte>): string {
    Concat(Pair, data)
  }

  /** `hex_encode` */
  method HexEncode(data: seq<Byte>) returns (s: string)
    ensures s == HexText(data)
  {
    s := "";
    for i := 0 to |data|
      invariant s == HexText(data[..i])
    {
      assert data[..i + 1] == data[..i] + [data[i]];
      ConcatNext(Pair, data[..i], data[i]);
      s := s + Hex(data[i], 2);
    }
    assert data[..|data|] == data;
  }

  /** `u8::from_str_radix` on two characters, which may be a plus sign and one digit. */
  function ParsePair(a: char, b: char): Option<Byte> {
    if !IsHexDigit(b) then None
    else if IsHexDigit(a) then Some(16 * HexDigitValue(a) + HexDigitValue(b))
    else if a == '+' then Some(HexDigitValue(b))
    else None
  }

  /** `hex_decode` */
  function HexDecode(hex: string): Result<seq<Byte>, SnapshotError> {
    if |hex| % 2 != 0 then Err(OddLength) else DecodePairs(hex)
  }

  function DecodePairs(hex: string): Result<seq<Byte>, SnapshotError>
    requires |hex| % 2 == 0
  {
    if hex == "" then Ok([])
    else
      var init := DecodePairs(hex[..|hex| - 2]);
      var last := ParsePair(hex[|hex| - 2], hex[|hex| - 1]);
      if init.Err? then init else if last.None? then Err(BadDigits) else Ok(init.value + [last.value])
  }

  lemma OnePair(a: char, b: char)
    ensures HexDecode([a, b]) == match ParsePair(a, b) case Some(byte) => Ok([byte]) case None => Err(BadDigits)
  {
    var s := [a, b];
    assert s[..|s| - 2] == "";
    assert DecodePairs("") == Ok([]);
    var pair := ParsePair(a, b);
    if pair.Some? { assert [] + [pair.value] == [pair.value]; }
  }

  /** A plus sign may stand in the place of a first digit; any other character is refused. */
  lemma PairsRead(a: char, b: char)
    ensures IsHexDigit(b) ==> HexDecode(['+', b]) == Ok([HexDigitValue(b)])
    ensures !IsHexDigit(b) || (!IsHexDigit(a) && a != '+') ==> HexDecode([a, b]) == Err(BadDigits)
  {
    OnePair('+', b);
    OnePair(a, b);
  }

  // ── The text ────────────────────────────────────────────────────────

  /** `serialize_cpu_state` */
  function Serialize(cpu: Cpu): string {
    JsonText(HexText(cpu.regs), HexText(cpu.sregs), HexText(cpu.fpu))
  }

  function JsonText(regs: string, sregs: string, fpu: string): string {
    "{" + Pattern("regs", "\"") + regs + "\"," + Pattern("sregs", "\"") + sregs + "\"," +
    Pattern("fpu", "\"") + fpu + "\"}"
  }

  /** `extract_json_field` */
  function ExtractField(json: string, field: string): Result<string, SnapshotError> {
    var pattern := Pattern(field, "\"");
    var found := Find(json, pattern);
    if found.None? then Err(MissingField)
    else
      var rest := json[found.value + |pattern|..];
      if QUOTE !in rest then Err(UnterminatedField) else Ok(rest[..FirstIndex(rest, QUOTE)])
  }

  function ReadField(json: string, field: string): Result<seq<Byte>, SnapshotError> {
    var hex := ExtractField(json, field);
    if hex.Err? then Err(hex.error) else HexDecode(hex.value)
  }

  /** `deserialize_cpu_state` */
  function Deserialize(json: string, layout: Layout): Result<Cpu, SnapshotError> {
    var regs, sregs, fpu := ReadField(json, "regs"), ReadField(json, "sregs"), ReadField(json, "fpu");
    if regs.Err? then Err(regs.error)
    else if sregs.Err? then Err(sregs.error)
    else if fpu.Err? then Err(fpu.error)
    else
      var cpu := Cpu(regs.value, sregs.value, fpu.value);
      if Sized(cpu, layout) then Ok(cpu) else Err(SizeMismatch)
  }

  // ── Decoding what was encoded ───────────────────────────────────────

  lemma PairRoundTrip(b: Byte)
    ensures var h := Hex(b, 2); |h| == 2 && AllHexDigits(h) && ParsePair(h[0], h[1]) == Some(b)
  {
    ByteFits(b);
    HexRoundTrip(b, 2);
    var h := Hex(b, 2);
    assert h[..1] == [h[0]] && h[..1][..0] == "";
    assert HexValue(h) == 16 * HexValue(h[..1]) + HexDigitValue(h[1]);
    assert HexValue(h[..1]) == HexDigitValue(h[0]);
  }

  /** The text s decodes to the block. */
  ghost predicate Decodes(s: string, data: seq<Byte>) {
    AllHexDigits(s) && |s| == 2 * |data| && DecodePairs(s) == Ok(data)
  }

  /** The pair h is for the byte b. */
  ghost predicate PairFor(h: string, b: Byte) {
    |h| == 2 && AllHexDigits(h) && ParsePair(h[0], h[1]) == Some(b)
  }

  lemma DecodesNext(s: string, data: seq<Byte>, h: string, b: Byte)
    requires Decodes(s, data) && PairFor(h, b)
    ensures Decodes(s + h, data + [b])
  {
    assert (s + h)[..|s|] == s;
  }

  lemma {:induction false} PairsDecode(pair: Byte -> string, data: seq<Byte>)
    requires forall b: Byte :: PairFor(pair(b), b)
    ensures Decodes(Concat(pair, data), data)
  {
    if data != [] {
      var init, last := data[..|data| - 1], data[|data| - 1];
      PairsDecode(pair, init);
      DecodesNext(Concat(pair, init), init, pair(last), last);
      assert data == init + [last];
    }
  }

  /** A block comes back byte for byte. */
  lemma HexTextDecodes(data: seq<Byte>)
    ensures AllHexDigits(HexText(data)) && |HexText(data)| == 2 * |data| && HexDecode(HexText(data)) == Ok(data)
  {
    forall b: Byte ensures PairFor(Pair(b), b) { PairRoundTrip(b); }
    PairsDecode(Pair, data);
  }

  // ── Finding the fields ──────────────────────────────────────────────

  /** A hexadecimal block is never a field name that holds another letter. */
  lemma HexIsNoName(hex: string, name: string, i: nat)
    requires AllHexDigits(hex) && i < |name| && !IsHexDigit(name[i])
    ensures hex != name
  {
  }

  /** A field with a quote-free value is extracted when no earlier segment is its name. */
  lemma FieldExtracted(segs: seq<string>, name: string, value: string, rest: string)
    requires segs != [] && AllQuoteFree(segs) && FieldName(name) && QuoteFree(value)
    requires forall i | 0 < i < |segs| - 1 :: segs[i] != name
    ensures ExtractField(JoinQuotes(segs) + Pattern(name, "\"") + (value + "\"" + rest), name) == Ok(value)
  {
    var pre, p, post := JoinQuotes(segs), Pattern(name, "\""), value + "\"" + rest;
    FieldFound(segs, name, "\"", post);
    assert (pre + p + post)[|pre| + |p|..] == post;
    FirstIndexIs(value, QUOTE, rest);
    Pieces(value, QUOTE, rest);
    assert post[|value|] == QUOTE;
  }

  /** One field further: four more segments. */
  lemma JoinField(segs: seq<string>, name: string, value: string)
    requires segs != []
    ensures JoinQuotes(segs + [name] + [":"] + [value] + [","])
         == JoinQuotes(segs) + Pattern(name, "\"") + value + "\","
  {
    JoinSnoc(segs, name);
    JoinSnoc(segs + [name], ":");
    JoinSnoc(segs + [name] + [":"], value);
    JoinSnoc(segs + [name] + [":"] + [value], ",");
    var pre := JoinQuotes(segs);
    assert pre + [QUOTE] + name + [QUOTE] + ":" + [QUOTE] + value + [QUOTE] + ","
        == pre + Pattern(name, "\"") + value + "\",";
  }

  function BeforeRegs(): seq<string> {
    ["{"]
  }

  function BeforeSregs(regs: string): seq<string> {
    BeforeRegs() + ["regs"] + [":"] + [regs] + [","]
  }

  function BeforeFpu(regs: string, sregs: string): seq<string> {
    BeforeSregs(regs) + ["sregs"] + [":"] + [sregs] + [","]
  }

  lemma EndOfField(pre: string, value: string, rest: string)
    ensures pre + value + "\"," + rest == pre + (value + "\"" + ("," + rest))
  {
  }

  lemma GroupRegs(r: string, p: string, s: string, q: string, f: string)
    ensures "{" + Pattern("regs", "\"") + r + "\"," + p + s + "\"," + q + f + "\"}"
         == "{" + Pattern("regs", "\"") + (r + "\"" + ("," + (p + s + "\"," + q + f + "\"}")))
  {
    var pre := "{" + Pattern("regs", "\"");
    assert pre + r + "\"," + p + s + "\"," + q + f + "\"}" == pre + r + "\"," + (p + s + "\"," + q + f + "\"}");
    EndOfField(pre, r, p + s + "\"," + q + f + "\"}");
  }

  lemma GroupSregs(pre: string, s: string, q: string, f: string)
    ensures pre + s + "\"," + q + f + "\"}" == pre + (s + "\"" + ("," + (q + f + "\"}")))
  {
    assert pre + s + "\"," + q + f + "\"}" == pre + s + "\"," + (q + f + "\"}");
    EndOfField(pre, s, q + f + "\"}");
  }

  lemma RegsExtracted(r: string, s: string, f: string)
    requires QuoteFree(r)
    ensures ExtractField(JsonText(r, s, f), "regs") == Ok(r)
  {
    var p, q := Pattern("sregs", "\""), Pattern("fpu", "\"");
    FieldExtracted(BeforeRegs(), "regs", r, "," + (p + s + "\"," + q + f + "\"}"));
    GroupRegs(r, p, s, q, f);
  }

  lemma SregsExtracted(r: string, s: string, f: string)
    requires QuoteFree(r) && QuoteFree(s) && r != "sregs"
    ensures ExtractField(JsonText(r, s, f), "sregs") == Ok(s)
  {
    var q := Pattern("fpu", "\"");
    JoinField(BeforeRegs(), "regs", r);
    FieldExtracted(BeforeSregs(r), "sregs", s, "," + (q + f + "\"}"));
    GroupSregs(JoinQuotes(BeforeSregs(r)) + Pattern("sregs", "\""), s, q, f);
  }

  lemma FpuExtracted(r: string, s: string, f: string)
    requires QuoteFree(r) && QuoteFree(s) && QuoteFree(f) && r != "fpu" && s != "fpu"
    ensures ExtractField(JsonText(r, s, f), "fpu") == Ok(f)
  {
    JoinField(BeforeRegs(), "regs", r);
    JoinField(BeforeSregs(r), "sregs", s);
    FieldExtracted(BeforeFpu(r, s), "fpu", f, "}");
    EndOfText(JoinQuotes(BeforeFpu(r, s)) + Pattern("fpu", "\""), f);
  }

  lemma EndOfText(pre: string, value: string)
    ensures pre + (value + "\"" + "}") == pre + value + "\"}"
  {
  }

  lemma FieldsRead(cpu: Cpu)
    ensures ReadField(Serialize(cpu), "regs") == Ok(cpu.regs)
    ensures ReadField(Serialize(cpu), "sregs") == Ok(cpu.sregs)
    ensures ReadField(Serialize(cpu), "fpu") == Ok(cpu.fpu)
  {
    var r, s, f := HexText(cpu.regs), HexText(cpu.sregs), HexText(cpu.fpu);
    HexTextDecodes(cpu.regs);
    HexTextDecodes(cpu.sregs);
    HexTextDecodes(cpu.fpu);
    HexIsNoName(r, "sregs", 0);
    HexIsNoName(r, "fpu", 1);
    HexIsNoName(s, "fpu", 1);
    RegsExtracted(r, s, f);
    SregsExtracted(r, s, f);
    FpuExtracted(r, s, f);
  }

  /** The saved state comes back for all register bytes, exactly on a machine with blocks of the same sizes. */
  lemma SnapshotRoundTrip(cpu: Cpu, layout: Layout)
    ensures Deserialize(Serialize(cpu), layout) ==
            if layout == Layout(|cpu.regs|, |cpu.sregs|, |cpu.fpu|) then Ok(cpu) else Err(SizeMismatch)
  {
    FieldsRead(cpu);
  }
}
