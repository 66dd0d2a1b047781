/** Docker stream frames on one socket with two writer threads. */
module Framing {
  import opened Bytes
  import opened Numbers
  import opened Wrappers

  // ── Frames ──────────────────────────────────────────────────────────

  datatype Frame = Frame(streamType: Byte, payload: seq<Byte>)

  predicate Fits(payload: seq<Byte>) {
    |payload| <= U32_MAX
  }

  function Header(streamType: Byte, size: nat): (r: seq<Byte>)
    requires size <= U32_MAX
    ensures |r| == 8
  {
    [streamType, 0, 0, 0] + ToBigEndian(size)
  }

  /** What `write_docker_stream_frame` puts on the socket; a longer payload is an error. */
  function GuestFrame(streamType: Byte, payload: seq<Byte>): Option<seq<Byte>> {
    if Fits(payload) then Some(Header(streamType, |payload|) + payload) else None
  }

  /** `raw_stream_frame`, which writes the largest size for a longer payload. */
  function HostFrame(streamType: Byte, payload: seq<Byte>): seq<Byte> {
    Header(streamType, if Fits(payload) then |payload| else U32_MAX) + payload
  }

  function Encode(f: Frame): seq<Byte>
    requires Fits(f.payload)
  {
    Header(f.streamType, |f.payload|) + f.payload
  }

  /** The bytes of a frame: its type, three zeros, the size in network byte order, and the payload. */
  lemma FrameLayout(streamType: Byte, payload: seq<Byte>)
    ensures Fits(payload) ==> GuestFrame(streamType, payload) == Some(HostFrame(streamType, payload))
    ensures var bytes := HostFrame(streamType, payload);
            && |bytes| == 8 + |payload| && bytes[..4] == [streamType, 0, 0, 0] && bytes[8..] == payload
            && ((bytes[4] as nat * 256 + bytes[5] as nat) * 256 + bytes[6] as nat) * 256 + bytes[7] as nat
               == if |payload| < 0x1_0000_0000 then |payload| else 0xFFFF_FFFF
  {
    BigEndianRoundTrip(if Fits(payload) then |payload| else U32_MAX);
  }

  datatype Decoded = Decoded(frames: seq<Frame>, rest: seq<Byte>)

  /** Whether the bytes start with a whole frame. */
  predicate Whole(bytes: seq<Byte>) {
    |bytes| >= 8 && |bytes| >= 8 + FromBigEndian(bytes[4..8])
  }

  function FirstFrame(bytes: seq<Byte>): Frame
    requires Whole(bytes)
  {
    Frame(bytes[0], bytes[8..8 + FromBigEndian(bytes[4..8])])
  }

  function AfterFirst(bytes: seq<Byte>): seq<Byte>
    requires Whole(bytes)
  {
    bytes[8 + FromBigEndian(bytes[4..8])..]
  }

  /** Reading frames by their headers, as far as whole ones have arrived. */
  function Decode(bytes: seq<Byte>): Decoded
    decreases |bytes|
  {
    if !Whole(bytes) then Decoded([], bytes)
    else
      Behind([FirstFrame(bytes)], Decode(AfterFirst(bytes)))
  }

  function Behind(frames: seq<Frame>, d: Decoded): Decoded {
    Decoded(frames + d.frames, d.rest)
  }

  /** The payloads of one stream, in order. */
  function Stream(frames: seq<Frame>, streamType: Byte): seq<Byte> {
    if frames == [] then []
    else (if frames[0].streamType == streamType then frames[0].payload else []) + Stream(frames[1..], streamType)
  }

  // ── Decoding ────────────────────────────────────────────────────────

  lemma EncodeWhole(f: Frame, more: seq<Byte>)
    requires Fits(f.payload)
    ensures Whole(Encode(f) + more) && FirstFrame(Encode(f) + more) == f && AfterFirst(Encode(f) + more) == more
  {
    var bytes := Encode(f) + more;
    BigEndianRoundTrip(|f.payload|);
    assert bytes[4..8] == ToBigEndian(|f.payload|);
    assert bytes[8..8 + |f.payload|] == f.payload;
    assert bytes[8 + |f.payload|..] == more;
  }

  lemma DecodeOne(f: Frame)
    requires Fits(f.payload)
    ensures Decode(Encode(f)) == Decoded([f], [])
  {
    EncodeWhole(f, []);
    assert Encode(f) + [] == Encode(f);
  }

  lemma DecodePart(f: Frame, k: nat)
    requires Fits(f.payload) && k < |Encode(f)|
    ensures Decode(Encode(f)[..k]) == Decoded([], Encode(f)[..k])
  {
    var part := Encode(f)[..k];
    BigEndianRoundTrip(|f.payload|);
    assert Encode(f)[4..8] == ToBigEndian(|f.payload|);
    assert k >= 8 ==> part[4..8] == Encode(f)[4..8];
  }

  lemma WholeAppend(a: seq<Byte>, b: seq<Byte>)
    requires Whole(a)
    ensures Whole(a + b) && FirstFrame(a + b) == FirstFrame(a) && AfterFirst(a + b) == AfterFirst(a) + b
  {
    assert (a + b)[4..8] == a[4..8];
    var n := 8 + FromBigEndian(a[4..8]);
    assert (a + b)[8..n] == a[8..n];
    assert (a + b)[n..] == a[n..] + b;
  }

  /** Decoding what has arrived and then what is left with the rest is decoding everything. */
  lemma {:induction false} DecodeAppend(a: seq<Byte>, b: seq<Byte>)
    ensures Decode(a + b) == Behind(Decode(a).frames, Decode(Decode(a).rest + b))
    decreases |a|
  {
    if Whole(a) {
      WholeAppend(a, b);
      var d := Decode(AfterFirst(a));
      DecodeAppend(AfterFirst(a), b);
      BehindTwice([FirstFrame(a)], d.frames, Decode(d.rest + b));
    }
  }

  lemma BehindTwice(fs: seq<Frame>, gs: seq<Frame>, d: Decoded)
    ensures Behind(fs, Behind(gs, d)) == Behind(fs + gs, d)
  {
  }

  lemma {:induction false} StreamAppend(fs: seq<Frame>, gs: seq<Frame>, streamType: Byte)
    ensures Stream(fs + gs, streamType) == Stream(fs, streamType) + Stream(gs, streamType)
  {
    if fs == [] {
      assert fs + gs == gs;
    } else {
      assert (fs + gs)[1..] == fs[1..] + gs;
      StreamAppend(fs[1..], gs, streamType);
    }
  }
}
