/** Bytes and the 32-bit numbers written in them. */
module Bytes {
  import opened Numbers

  type Byte = x: nat | x < 256

  /** `u32::to_be_bytes` */
  function ToBigEndian(n: nat): (r: seq<Byte>)
    requires n <= U32_MAX
    ensures |r| == 4
  {
    [n / 256 / 256 / 256, n / 256 / 256 % 256, n / 256 % 256, n % 256]
  }

  function FromBigEndian(b: seq<Byte>): nat
    requires |b| == 4
  {
    ((b[0] as nat * 256 + b[1] as nat) * 256 + b[2] as nat) * 256 + b[3] as nat
  }

  lemma BigEndianRoundTrip(n: nat)
    requires n <= U32_MAX
    ensures FromBigEndian(ToBigEndian(n)) == n
  {
  }
}
