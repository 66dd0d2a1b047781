/** Supernets written as IPv4 CIDR text. */
module Cidr {
  import opened Decimal
  import opened Fnv
  import opened Network
  import opened Strings
  import opened Numbers
  import opened Wrappers

  datatype CidrError = NotCidr | InvalidAddress | InvalidPrefix | PrefixOutOfRange | Unaligned

  // ── Addresses ───────────────────────────────────────────────────────

  /** One part of dotted text: up to three digits without a leading zero, at most 255. */
  function ParseOctet(s: string): Option<nat> {
    if AllDigits(s) && 1 <= |s| <= 3 && (|s| > 1 ==> s[0] != '0') && Value(s) <= U8_MAX then Some(Value(s)) else None
  }

  function NextDot(s: string, i: nat): (r: Option<nat>)
    requires i <= |s|
    ensures r.Some? ==> i <= r.value < |s| && s[r.value] == '.' && forall j | i <= j < r.value :: s[j] != '.'
    ensures r.None? ==> forall j | i <= j < |s| :: s[j] != '.'
    decreases |s| - i
  {
    if i == |s| then None else if s[i] == '.' then Some(i) else NextDot(s, i + 1)
  }

  datatype Dotted = Dotted(a: string, b: string, c: string, d: string)

  /** The texts around the first three dots. */
  function SplitDots(s: string): Option<Dotted> {
    var p := NextDot(s, 0);
    if p.None? then None else SplitSecond(s, p.value)
  }

  function SplitSecond(s: string, p: nat): Option<Dotted>
    requires p < |s|
  {
    var q := NextDot(s, p + 1);
    if q.None? then None else SplitThird(s, p, q.value)
  }

  function SplitThird(s: string, p: nat, q: nat): Option<Dotted>
    requires p < q < |s|
  {
    var r := NextDot(s, q + 1);
    if r.None? then None else Some(Dotted(s[..p], s[p + 1..q], s[q + 1..r.value], s[r.value + 1..]))
  }

  function JoinDots(t: Dotted): string {
    t.a + "." + t.b + "." + t.c + "." + t.d
  }

  /** `str::parse::<Ipv4Addr>` */
  function ParseAddress(s: string): Option<nat> {
    var t := SplitDots(s);
    if t.None? then None
    else
      var a, b, c, d := ParseOctet(t.value.a), ParseOctet(t.value.b), ParseOctet(t.value.c), ParseOctet(t.value.d);
      if a.None? || b.None? || c.None? || d.None? then None
      else Some(Address(a.value, b.value, c.value, d.value))
  }

  datatype Octets = Octets(a: nat, b: nat, c: nat, d: nat)

  /** The four octets of an address, highest first. */
  function OctetsOf(address: nat): Octets {
    Octets(address / 256 / 256 / 256, address / 256 / 256 % 256, address / 256 % 256, address % 256)
  }

  function Texts(o: Octets): Dotted {
    Dotted(Print(o.a), Print(o.b), Print(o.c), Print(o.d))
  }

  /** `Display` of an `Ipv4Addr`. */
  function PrintAddress(address: nat): string {
    JoinDots(Texts(OctetsOf(address)))
  }

  // ── Supernets ───────────────────────────────────────────────────────

  /** `NamedNetworkSupernet::parse` */
  function Parse(cidr: string): Result<Supernet, CidrError> {
    if '/' !in cidr then Err(NotCidr)
    else
      var slash := FirstIndex(cidr, '/');
      FromParts(ParseAddress(cidr[..slash]), ParseUnsigned(cidr[slash + 1..], U8_MAX))
  }

  function FromParts(address: Option<nat>, prefix: Option<nat>): Result<Supernet, CidrError> {
    if address.None? then Err(InvalidAddress)
    else if prefix.None? then Err(InvalidPrefix)
    else if !(8 <= prefix.value <= 24) then Err(PrefixOutOfRange)
    else if NetworkOf(address.value, prefix.value) != address.value then Err(Unaligned)
    else Ok(Supernet(address.value, prefix.value))
  }

  /** `cidr` */
  function CidrText(n: Supernet): string {
    PrintAddress(n.base) + "/" + Print(n.prefix)
  }

  // ── Octets ──────────────────────────────────────────────────────────

  predicate InRange(o: Octets) {
    o.a <= U8_MAX && o.b <= U8_MAX && o.c <= U8_MAX && o.d <= U8_MAX
  }

  /** Digits without a leading zero are how their value is printed. */
  lemma {:induction false} PrintValue(s: string)
    requires s != "" && AllDigits(s) && (|s| > 1 ==> s[0] != '0')
    ensures Print(Value(s)) == s
    ensures |s| > 1 ==> Value(s) >= 10
  {
    var last := (s[|s| - 1] - '0') as nat;
    DigitValue(s[|s| - 1]);
    if |s| == 1 {
      assert Value(s) == last && s == [Digit(last)];
    } else {
      var init := s[..|s| - 1];
      PrintValue(init);
      LeadingDigit(init);
      assert Value(s) == 10 * Value(init) + last;
      assert s == init + [Digit(last)];
    }
  }

  lemma DigitValue(c: char)
    requires IsDigit(c)
    ensures (c - '0') as nat < 10 && Digit((c - '0') as nat) == c
  {
  }

  lemma {:induction false} LeadingDigit(s: string)
    requires s != "" && AllDigits(s) && s[0] != '0'
    ensures Value(s) > 0
  {
    if |s| > 1 { LeadingDigit(s[..|s| - 1]); }
  }

  lemma PrintShort(n: nat)
    requires n <= U8_MAX
    ensures |Print(n)| <= 3
  {
    assert |Print(n / 10 / 10)| == 1;
    assert |Print(n / 10)| <= 2;
  }

  /** A text is read as an octet exactly when it prints one. */
  lemma OctetText(s: string, o: nat)
    ensures ParseOctet(s) == Some(o) <==> o <= U8_MAX && s == Print(o)
  {
    if ParseOctet(s) == Some(o) { PrintValue(s); }
    if o <= U8_MAX && s == Print(o) {
      PrintParses(o);
      PrintShort(o);
    }
  }

  lemma NoDot(o: nat)
    ensures '.' !in Print(o) && '/' !in Print(o)
  {
    PrintParses(o);
  }

  predicate DotFree(t: Dotted) {
    '.' !in t.a && '.' !in t.b && '.' !in t.c
  }

  lemma SplitJoins(s: string, t: Dotted)
    requires SplitDots(s) == Some(t)
    ensures s == JoinDots(t)
  {
  }

  lemma NextDotAfter(s: string, i: nat, t: string)
    requires i + |t| < |s| && s[i..i + |t|] == t && '.' !in t && s[i + |t|] == '.'
    ensures NextDot(s, i) == Some(i + |t|)
  {
    assert forall j | i <= j < i + |t| :: s[j] == t[j - i];
  }

  lemma Joined(t: Dotted, p: nat, q: nat, r: nat)
    requires p == |t.a| && q == p + 1 + |t.b| && r == q + 1 + |t.c|
    ensures var s := JoinDots(t);
            && r < |s| && s[p] == s[q] == s[r] == '.'
            && s[..p] == t.a && s[p + 1..q] == t.b && s[q + 1..r] == t.c && s[r + 1..] == t.d
  {
  }

  lemma JoinSplits(t: Dotted)
    requires DotFree(t)
    ensures SplitDots(JoinDots(t)) == Some(t)
  {
    var s := JoinDots(t);
    var p := |t.a|;
    var q := p + 1 + |t.b|;
    var r := q + 1 + |t.c|;
    Joined(t, p, q, r);
    SplitJoined(s, t, p, q, r);
  }

  lemma SplitJoined(s: string, t: Dotted, p: nat, q: nat, r: nat)
    requires DotFree(t) && p == |t.a| && q == p + 1 + |t.b| && r == q + 1 + |t.c|
    requires r < |s| && s[p] == s[q] == s[r] == '.'
    requires s[..p] == t.a && s[p + 1..q] == t.b && s[q + 1..r] == t.c && s[r + 1..] == t.d
    ensures SplitDots(s) == Some(t)
  {
    FirstPart(s, t.a, p);
    SecondPart(s, p, t.b, q);
    ThirdPart(s, p, q, t, r);
  }

  lemma FirstPart(s: string, a: string, p: nat)
    requires p == |a| < |s| && s[..p] == a && '.' !in a && s[p] == '.'
    ensures SplitDots(s) == SplitSecond(s, p)
  {
    NextDotAfter(s, 0, a);
  }

  lemma SecondPart(s: string, p: nat, b: string, q: nat)
    requires q == p + 1 + |b| < |s| && s[p + 1..q] == b && '.' !in b && s[q] == '.'
    ensures SplitSecond(s, p) == SplitThird(s, p, q)
  {
    NextDotAfter(s, p + 1, b);
  }

  lemma ThirdPart(s: string, p: nat, q: nat, t: Dotted, r: nat)
    requires p < q && r == q + 1 + |t.c| < |s| && '.' !in t.c && s[r] == '.'
    requires s[..p] == t.a && s[p + 1..q] == t.b && s[q + 1..r] == t.c && s[r + 1..] == t.d
    ensures SplitThird(s, p, q) == Some(t)
  {
    NextDotAfter(s, q + 1, t.c);
  }

  lemma LastOctet(x: nat, d: nat)
    requires d < 256
    ensures (x * 256 + d) / 256 == x && (x * 256 + d) % 256 == d
  {
  }

  function AddressOf(o: Octets): nat {
    Address(o.a, o.b, o.c, o.d)
  }

  lemma AddressOctets(o: Octets)
    requires InRange(o)
    ensures OctetsOf(AddressOf(o)) == o && AddressOf(o) <= U32_MAX
  {
    LastOctet((o.a * 256 + o.b) * 256 + o.c, o.d);
    LastOctet(o.a * 256 + o.b, o.c);
    LastOctet(o.a, o.b);
  }

  lemma OctetsAddress(address: nat)
    requires address <= U32_MAX
    ensures InRange(OctetsOf(address)) && AddressOf(OctetsOf(address)) == address
  {
  }

  lemma TextsAvoid(o: Octets)
    ensures DotFree(Texts(o)) && '/' !in JoinDots(Texts(o))
  {
    NoDot(o.a); NoDot(o.b); NoDot(o.c); NoDot(o.d);
  }

  lemma AddressParsed(s: string) returns (o: Octets)
    requires ParseAddress(s).Some?
    ensures InRange(o) && s == JoinDots(Texts(o)) && ParseAddress(s).value == AddressOf(o)
  {
    var t := SplitDots(s).value;
    SplitJoins(s, t);
    o := Octets(ParseOctet(t.a).value, ParseOctet(t.b).value, ParseOctet(t.c).value, ParseOctet(t.d).value);
    OctetText(t.a, o.a); OctetText(t.b, o.b); OctetText(t.c, o.c); OctetText(t.d, o.d);
  }

  lemma AddressPrinted(o: Octets)
    requires InRange(o)
    ensures ParseAddress(JoinDots(Texts(o))) == Some(AddressOf(o))
  {
    var t := Texts(o);
    TextsAvoid(o);
    JoinSplits(t);
    OctetText(t.a, o.a); OctetText(t.b, o.b); OctetText(t.c, o.c); OctetText(t.d, o.d);
  }

  /** A text is read as an address exactly when it prints that address. */
  lemma AddressText(s: string, address: nat)
    ensures ParseAddress(s) == Some(address) <==> address <= U32_MAX && s == PrintAddress(address)
  {
    if ParseAddress(s) == Some(address) {
      var o := AddressParsed(s);
      AddressOctets(o);
    }
    if address <= U32_MAX && s == PrintAddress(address) {
      OctetsAddress(address);
      AddressPrinted(OctetsOf(address));
    }
  }

  // ── Reading and printing supernets ──────────────────────────────────

  /** An address text, a slash, and any decimal text of the prefix. */
  ghost predicate Writes(s: string, n: Supernet) {
    exists k: nat :: WritesAt(s, k, n)
  }

  predicate WritesAt(s: string, k: nat, n: Supernet) {
    k < |s| && s[k] == '/' && s[..k] == PrintAddress(n.base) && ParseUnsigned(s[k + 1..], U8_MAX) == Some(n.prefix)
  }

  lemma AddressHasNoSlash(address: nat)
    ensures '/' !in PrintAddress(address)
  {
    TextsAvoid(OctetsOf(address));
  }

  lemma SlashIs(s: string, k: nat)
    requires k < |s| && s[k] == '/' && '/' !in s[..k]
    ensures FirstIndex(s, '/') == k
  {
    FirstIndexIs(s[..k], '/', s[k + 1..]);
    assert s == s[..k] + ['/'] + s[k + 1..];
  }

  lemma PartsAccept(address: Option<nat>, prefix: Option<nat>, n: Supernet)
    requires address.Some? ==> address.value <= U32_MAX
    ensures FromParts(address, prefix) == Ok(n) <==> Valid(n) && address == Some(n.base) && prefix == Some(n.prefix)
  {
  }

  lemma ParseSplit(s: string, k: nat, n: Supernet)
    requires k < |s| && s[k] == '/' && '/' !in s[..k]
    ensures Parse(s) == Ok(n) <==> Valid(n) && WritesAt(s, k, n)
  {
    ParseIs(s, k);
    AcceptsTexts(s[..k], s[k + 1..], n);
  }

  lemma ParseIs(s: string, k: nat)
    requires k < |s| && s[k] == '/' && '/' !in s[..k]
    ensures Parse(s) == FromParts(ParseAddress(s[..k]), ParseUnsigned(s[k + 1..], U8_MAX))
  {
    SlashIs(s, k);
  }

  lemma AcceptsTexts(address: string, prefix: string, n: Supernet)
    ensures FromParts(ParseAddress(address), ParseUnsigned(prefix, U8_MAX)) == Ok(n)
       <==> Valid(n) && address == PrintAddress(n.base) && ParseUnsigned(prefix, U8_MAX) == Some(n.prefix)
  {
    var a := ParseAddress(address);
    if a.Some? { AddressText(address, a.value); }
    AddressText(address, n.base);
    PartsAccept(a, ParseUnsigned(prefix, U8_MAX), n);
  }

  /** `parse` accepts exactly the texts that write a valid supernet, and returns that one. */
  lemma ParseAccepts(s: string, n: Supernet)
    ensures Parse(s) == Ok(n) <==> Valid(n) && Writes(s, n)
  {
    if Parse(s) == Ok(n) { ParseSplit(s, FirstIndex(s, '/'), n); }
    if Valid(n) && Writes(s, n) {
      var k: nat :| WritesAt(s, k, n);
      AddressHasNoSlash(n.base);
      ParseSplit(s, k, n);
    }
  }

  /** Printing and parsing give a supernet back exactly when it is valid. */
  lemma PrintThenParse(n: Supernet)
    ensures Parse(CidrText(n)) == Ok(n) <==> Valid(n)
  {
    ParseAccepts(CidrText(n), n);
    if Valid(n) {
      var address := PrintAddress(n.base);
      Pieces(address, '/', Print(n.prefix));
      UnsignedRoundTrip(n.prefix, U8_MAX);
      assert WritesAt(CidrText(n), |address|, n);
    }
  }

  /** The default text and the default value are the same supernet. */
  lemma DefaultSupernetText()
    ensures Parse("100.64.0.0/10") == Ok(DefaultSupernet())
  {
    var n := DefaultSupernet();
    AddressOctets(Octets(100, 64, 0, 0));
    assert Print(100) == "100" && Print(64) == "64" && Print(0) == "0" && Print(10) == "10";
    assert CidrText(n) == "100.64.0.0/10";
    DefaultAligned();
    PrintThenParse(n);
  }

  lemma DefaultAligned()
    ensures Valid(DefaultSupernet())
  {
    Pow2Values();
    Pow2Sum(16, 6);
    assert Pow2(6) == 4 * Pow2(4);
    ModIs(DefaultSupernet().base, Pow2(22), 401, 0);
  }
}
