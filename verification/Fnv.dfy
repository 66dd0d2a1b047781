/** The 64-bit FNV-1a hash that names networks. */
module Fnv {
  import opened Bytes

  const FNV_OFFSET: nat := 0xcbf2_9ce4_8422_2325
  const FNV_PRIME: nat := 0x0000_0100_0000_01b3

  function Pow2(k: nat): (r: nat)
    ensures r > 0
  {
    if k == 0 then 1 else 2 * Pow2(k - 1)
  }

  /** Exclusive or, bit by bit. */
  function Xor(a: nat, b: nat): nat
    decreases a + b
  {
    if a == 0 && b == 0 then 0 else (a + b) % 2 + 2 * Xor(a / 2, b / 2)
  }

  /** One byte into the hash, with the 64-bit wrap-around. */
  function Step(hash: nat, byte: Byte): nat {
    Xor(hash, byte) * FNV_PRIME % Pow2(64)
  }

  function Hash(bytes: seq<Byte>): nat {
    HashFrom(FNV_OFFSET, bytes)
  }

  function HashFrom(hash: nat, bytes: seq<Byte>): nat
    decreases |bytes|
  {
    if bytes == [] then hash else HashFrom(Step(hash, bytes[0]), bytes[1..])
  }

  lemma {:induction false} HashAppend(hash: nat, a: seq<Byte>, b: seq<Byte>)
    ensures HashFrom(hash, a + b) == HashFrom(HashFrom(hash, a), b)
    decreases |a|
  {
    if a == [] {
      assert a + b == b;
    } else {
      assert (a + b)[1..] == a[1..] + b;
      HashAppend(Step(hash, a[0]), a[1..], b);
    }
  }

  /** `fnv1a64` */
  method Fnv1a64(bytes: seq<Byte>) returns (hash: nat)
    ensures hash == Hash(bytes)
  {
    hash := FNV_OFFSET;
    for i := 0 to |bytes|
      invariant HashFrom(hash, bytes[i..]) == Hash(bytes)
    {
      hash := Xor(hash, bytes[i]);
      hash := hash * FNV_PRIME % Pow2(64);
    }
  }

  // ── Low bits ────────────────────────────────────────────────────────

  /** The low k bits agree. */
  predicate SameLow(a: nat, b: nat, k: nat) {
    k == 0 || (a % 2 == b % 2 && SameLow(a / 2, b / 2, k - 1))
  }

  lemma ModIs(a: nat, m: nat, q: nat, r: nat)
    requires m > 0 && r < m && a == q * m + r
    ensures a % m == r
  {
    var d := a / m - q;
    assert d * m == r - a % m;
    assert d >= 1 ==> d * m >= m;
    assert d <= -1 ==> d * m <= 0 - m;
  }

  lemma ModHalves(a: nat, k: nat)
    ensures a % Pow2(k + 1) == a % 2 + 2 * (a / 2 % Pow2(k))
  {
    var m := Pow2(k);
    var q, r := a / 2 / m, a / 2 % m;
    assert a == 2 * (q * m + r) + a % 2;
    assert a == q * (2 * m) + (2 * r + a % 2);
    ModIs(a, 2 * m, q, 2 * r + a % 2);
  }

  lemma {:induction false} SameLowMod(a: nat, b: nat, k: nat)
    ensures SameLow(a, b, k) <==> a % Pow2(k) == b % Pow2(k)
  {
    if k > 0 {
      ModHalves(a, k - 1);
      ModHalves(b, k - 1);
      SameLowMod(a / 2, b / 2, k - 1);
    }
  }

  lemma Halves(bit: nat, rest: nat)
    requires bit < 2
    ensures (bit + 2 * rest) % 2 == bit && (bit + 2 * rest) / 2 == rest
  {
  }

  lemma XorHalves(a: nat, b: nat)
    ensures Xor(a, b) % 2 == (a + b) % 2 && Xor(a, b) / 2 == Xor(a / 2, b / 2)
  {
    Halves((a + b) % 2, Xor(a / 2, b / 2));
  }

  lemma Parity(a: nat, b: nat, c: nat, d: nat)
    requires a % 2 == b % 2
    ensures (a + c) % 2 == (b + d) % 2 <==> c % 2 == d % 2
  {
  }

  /** How the claim about two results follows from the one about their halves. */
  lemma SameLowFromHalves(u: nat, v: nat, c: nat, d: nat, u': nat, v': nat, k: nat)
    requires k > 0 && u / 2 == u' && v / 2 == v'
    requires u % 2 == v % 2 <==> c % 2 == d % 2
    requires u % 2 == v % 2 ==> (SameLow(u', v', k - 1) <==> SameLow(c / 2, d / 2, k - 1))
    ensures SameLow(u, v, k) <==> SameLow(c, d, k)
  {
  }

  /** Where one operand agrees, the results agree exactly as far as the other operands do. */
  lemma {:induction false} XorSameLow(a: nat, b: nat, c: nat, d: nat, k: nat)
    requires SameLow(a, b, k)
    ensures SameLow(Xor(a, c), Xor(b, d), k) <==> SameLow(c, d, k)
    decreases k
  {
    if k > 0 {
      XorHalves(a, c);
      XorHalves(b, d);
      XorSameLow(a / 2, b / 2, c / 2, d / 2, k - 1);
      Parity(a, b, c, d);
      SameLowFromHalves(Xor(a, c), Xor(b, d), c, d, Xor(a / 2, c / 2), Xor(b / 2, d / 2), k);
    }
  }

  lemma {:induction false} XorCommutes(a: nat, b: nat)
    ensures Xor(a, b) == Xor(b, a)
    decreases a + b
  {
    if a != 0 || b != 0 { XorCommutes(a / 2, b / 2); }
  }

  lemma OddHalves(odd: nat, c: nat, x: nat, u: nat)
    requires odd % 2 == 1 && u == odd * x + c
    ensures u / 2 == odd * (x / 2) + (odd * (x % 2) + c) / 2
    ensures u % 2 == (c + x % 2) % 2
  {
    assert u == 2 * (odd * (x / 2)) + (odd * (x % 2) + c);
    assert odd * (x % 2) == if x % 2 == 0 then 0 else odd;
  }

  /** Multiplying by an odd number neither joins nor separates low bits. */
  lemma {:induction false} OddSameLow(odd: nat, c: nat, x: nat, y: nat, u: nat, v: nat, k: nat)
    requires odd % 2 == 1 && u == odd * x + c && v == odd * y + c
    ensures SameLow(u, v, k) <==> SameLow(x, y, k)
    decreases k
  {
    if k > 0 {
      OddHalves(odd, c, x, u);
      OddHalves(odd, c, y, v);
      Parity(c, c, x % 2, y % 2);
      if x % 2 == y % 2 {
        OddSameLow(odd, (odd * (x % 2) + c) / 2, x / 2, y / 2, u / 2, v / 2, k - 1);
      }
      SameLowFromHalves(u, v, x, y, u / 2, v / 2, k);
    }
  }

  lemma WrapHalves(a: nat, n: nat)
    requires n > 0
    ensures a % Pow2(n) % 2 == a % 2 && a % Pow2(n) / 2 == a / 2 % Pow2(n - 1)
  {
    ModHalves(a, n - 1);
    Halves(a % 2, a / 2 % Pow2(n - 1));
  }

  lemma {:induction false} WrapSameLow(a: nat, n: nat, k: nat)
    requires k <= n
    ensures SameLow(a % Pow2(n), a, k)
  {
    if k > 0 {
      WrapHalves(a, n);
      WrapSameLow(a / 2, n - 1, k - 1);
    }
  }

  // ── Names one byte apart ────────────────────────────────────────────

  lemma StepSameLow(g: nat, h: nat, b: Byte, c: Byte, k: nat)
    requires k <= 64
    ensures SameLow(Step(g, b), Step(h, c), k) <==> SameLow(Xor(g, b), Xor(h, c), k)
  {
    var x, y := Xor(g, b), Xor(h, c);
    OddSameLow(FNV_PRIME, 0, x, y, x * FNV_PRIME, y * FNV_PRIME, k);
    WrapSameLow(x * FNV_PRIME, 64, k);
    WrapSameLow(y * FNV_PRIME, 64, k);
    SameLowMod(Step(g, b), x * FNV_PRIME, k);
    SameLowMod(Step(h, c), y * FNV_PRIME, k);
    SameLowMod(Step(g, b), Step(h, c), k);
    SameLowMod(x * FNV_PRIME, y * FNV_PRIME, k);
  }

  /** The same bytes further on keep hashes apart, or together. */
  lemma {:induction false} TailSameLow(g: nat, h: nat, bytes: seq<Byte>, k: nat)
    requires k <= 64
    ensures SameLow(HashFrom(g, bytes), HashFrom(h, bytes), k) <==> SameLow(g, h, k)
    decreases |bytes|
  {
    if bytes != [] {
      var b := bytes[0];
      TailSameLow(Step(g, b), Step(h, b), bytes[1..], k);
      StepSameLow(g, h, b, b, k);
      XorCommutes(g, b);
      XorCommutes(h, b);
      SameLowMod(b, b, k);
      XorSameLow(b, b, g, h, k);
    }
  }

  /**
   * Names that differ in one byte: the low k bits of their hashes agree exactly when the low k bits
   * of that byte do. From eight bits on, such names never share them.
   */
  lemma OneByteApart(before: seq<Byte>, x: Byte, y: Byte, after: seq<Byte>, k: nat)
    requires k <= 64
    ensures var g, h := Hash(before + [x] + after), Hash(before + [y] + after);
            g % Pow2(k) == h % Pow2(k) <==> x % Pow2(k) == y % Pow2(k)
  {
    var start := HashFrom(FNV_OFFSET, before);
    HashThrough(before, x, after);
    HashThrough(before, y, after);
    TailSameLow(Step(start, x), Step(start, y), after, k);
    StepSameLow(start, start, x, y, k);
    SameLowMod(start, start, k);
    XorSameLow(start, start, x, y, k);
    SameLowMod(Hash(before + [x] + after), Hash(before + [y] + after), k);
    SameLowMod(x, y, k);
  }

  lemma HashThrough(before: seq<Byte>, x: Byte, after: seq<Byte>)
    ensures Hash(before + [x] + after) == HashFrom(Step(HashFrom(FNV_OFFSET, before), x), after)
  {
    HashAppend(FNV_OFFSET, before, [x] + after);
    assert before + [x] + after == before + ([x] + after);
    assert ([x] + after)[1..] == after;
  }

  // ── Powers of two ───────────────────────────────────────────────────

  lemma {:induction false} Pow2Sum(j: nat, k: nat)
    ensures Pow2(j + k) == Pow2(j) * Pow2(k)
  {
    if j > 0 {
      Pow2Sum(j - 1, k);
      Doubled(Pow2(j - 1), Pow2(k));
    }
  }

  lemma Doubled(a: nat, b: nat)
    ensures (2 * a) * b == 2 * (a * b)
  {
  }

  lemma Pow2Values()
    ensures Pow2(4) == 16 && Pow2(8) == 256 && Pow2(16) == 65536 && Pow2(32) == 0x1_0000_0000
  {
    assert Pow2(4) == 2 * Pow2(3) == 4 * Pow2(2) == 8 * Pow2(1) == 16;
    Pow2Sum(4, 4);
    Pow2Sum(8, 8);
    Pow2Sum(16, 16);
  }

  lemma Pow2Word()
    ensures Pow2(64) == 0x1_0000_0000_0000_0000
  {
    Pow2Values();
    Pow2Sum(32, 32);
  }

  // ── Known values ────────────────────────────────────────────────────

  lemma {:induction false} XorZero(a: nat)
    ensures Xor(a, 0) == a
  {
    if a > 0 { XorZero(a / 2); }
  }

  lemma {:induction false} ZeroByte(hash: nat, zero: Byte, r: nat)
    requires zero == 0 && r == hash * 0x0100_0000_01b3 % 0x1_0000_0000_0000_0000
    ensures HashFrom(hash, [zero]) == r
  {
    Pow2Word();
    XorZero(hash);
    assert [zero][1..] == [];
  }

  /** The published FNV-1a values of the empty text and of a zero byte. */
  lemma KnownHashes(zero: Byte)
    requires zero == 0
    ensures Hash([]) == 0xcbf2_9ce4_8422_2325 && Hash([zero]) == 0xaf63_bd4c_8601_b7df
  {
    ZeroByte(FNV_OFFSET, zero, 0xaf63_bd4c_8601_b7df);
  }
}
