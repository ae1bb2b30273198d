/** The i3 IPC wire format: a six-byte magic string, the payload length and the
    payload type as 32-bit little-endian integers, then the payload. */
module Wire {
  import opened Helpers

  type Byte = x: int | 0 <= x < 256
  type Bytes = seq<Byte>

  const U32_LIMIT: int := 0x1_0000_0000

  type U32 = x: int | 0 <= x < 0x1_0000_0000

  /** A payload has to have a length that fits the header's 32 bits. */
  type Payload = p: Bytes | |p| < 0x1_0000_0000

  const MAGIC: Bytes := [0x69, 0x33, 0x2d, 0x69, 0x70, 0x63]
  const MAGIC_SIZE := 6
  const HEADER_SIZE := 14

  datatype Frame = Frame(kind: U32, payload: Payload)

  function LE32(n: U32): (b: Bytes)
    ensures |b| == 4
  {
    [n % 0x100, n / 0x100 % 0x100, n / 0x1_0000 % 0x100, n / 0x100_0000]
  }

  function FromLE32(b: Bytes): U32
    requires |b| == 4
  {
    b[0] as int + 0x100 * b[1] as int + 0x1_0000 * b[2] as int + 0x100_0000 * b[3] as int
  }

  lemma IntegersSurviveTheWire(n: U32)
    ensures FromLE32(LE32(n)) == n
  {
    var q1, q2, q3 := n / 0x100, n / 0x1_0000, n / 0x100_0000;
    assert q2 == q1 / 0x100 && q3 == q2 / 0x100;
    assert n == n % 0x100 + 0x100 * q1;
    assert q1 == q1 % 0x100 + 0x100 * q2;
    assert q2 == q2 % 0x100 + 0x100 * q3;
  }

  lemma LowByte(low: Byte, high: nat)
    ensures (low + 0x100 * high) % 0x100 == low && (low + 0x100 * high) / 0x100 == high
  {
  }

  lemma WireBytesAreIntegers(b: Bytes)
    requires |b| == 4
    ensures LE32(FromLE32(b)) == b
  {
    var n := FromLE32(b);
    var high2: nat := b[2] as int + 0x100 * b[3] as int;
    var high1: nat := b[1] as int + 0x100 * high2;
    LowByte(b[0], high1);
    LowByte(b[1], high2);
    LowByte(b[2], b[3]);
    assert n / 0x1_0000 == n / 0x100 / 0x100 && n / 0x100_0000 == n / 0x100 / 0x100 / 0x100;
  }

  function Header(length: U32, kind: U32): (h: Bytes)
    ensures |h| == HEADER_SIZE
  {
    MAGIC + LE32(length) + LE32(kind)
  }

  predicate HasMagic(s: Bytes)
    requires |s| >= HEADER_SIZE
  {
    s[..MAGIC_SIZE] == MAGIC
  }

  function LengthField(s: Bytes): U32
    requires |s| >= HEADER_SIZE
  {
    FromLE32(s[6..10])
  }

  function KindField(s: Bytes): U32
    requires |s| >= HEADER_SIZE
  {
    FromLE32(s[10..14])
  }

  /** Decoding the fields of a header and encoding them again are inverse. */
  lemma HeaderFields(length: U32, kind: U32, rest: Bytes)
    ensures HasMagic(Header(length, kind) + rest)
    ensures LengthField(Header(length, kind) + rest) == length
    ensures KindField(Header(length, kind) + rest) == kind
  {
    var s := Header(length, kind) + rest;
    assert s[..6] == MAGIC && s[6..10] == LE32(length) && s[10..14] == LE32(kind);
    IntegersSurviveTheWire(length);
    IntegersSurviveTheWire(kind);
  }

  lemma HeaderIsItsFields(s: Bytes)
    requires |s| >= HEADER_SIZE && HasMagic(s)
    ensures s[..HEADER_SIZE] == Header(LengthField(s), KindField(s))
  {
    WireBytesAreIntegers(s[6..10]);
    WireBytesAreIntegers(s[10..14]);
    assert s[..HEADER_SIZE] == s[..6] + s[6..10] + s[10..14];
  }

  function Encode(f: Frame): (s: Bytes)
    ensures |s| == HEADER_SIZE + |f.payload|
  {
    Header(|f.payload|, f.kind) + f.payload
  }

  /** The example of the manual: a command with the payload "exit". */
  lemma ManualExample()
    ensures Encode(Frame(0, [0x65, 0x78, 0x69, 0x74])) ==
            [0x69, 0x33, 0x2d, 0x69, 0x70, 0x63, 0x04, 0x00, 0x00, 0x00, 0x00, 0x00, 0x00, 0x00,
             0x65, 0x78, 0x69, 0x74]
  {
  }

  function EncodeAll(fs: seq<Frame>): Bytes
  {
    if fs == [] then [] else Encode(fs[0]) + EncodeAll(fs[1..])
  }

  lemma EncodeAllConcat(fs: seq<Frame>, gs: seq<Frame>)
    ensures EncodeAll(fs + gs) == EncodeAll(fs) + EncodeAll(gs)
  {
    if fs == [] {
      assert fs + gs == gs;
    } else {
      assert (fs + gs)[1..] == fs[1..] + gs;
      EncodeAllConcat(fs[1..], gs);
    }
  }

  lemma EncodeAllAppend(fs: seq<Frame>, f: Frame)
    ensures EncodeAll(fs + [f]) == EncodeAll(fs) + Encode(f)
  {
    EncodeAllConcat(fs, [f]);
    assert EncodeAll([f]) == Encode(f);
  }

  /** True when s starts with one complete, well-formed frame. */
  predicate StartsWithFrame(s: Bytes)
  {
    |s| >= HEADER_SIZE && HasMagic(s) && |s| >= HEADER_SIZE + LengthField(s)
  }

  function FirstFrame(s: Bytes): Frame
    requires StartsWithFrame(s)
  {
    Frame(KindField(s), s[HEADER_SIZE..HEADER_SIZE + LengthField(s)])
  }

  function AfterFirstFrame(s: Bytes): (rest: Bytes)
    requires StartsWithFrame(s)
    ensures |rest| < |s|
  {
    s[HEADER_SIZE + LengthField(s)..]
  }

  /** The frame-by-frame parse of a stream: every complete frame up to the first
      bad magic string or incomplete frame. */
  function Frames(s: Bytes): seq<Frame>
    decreases |s|
  {
    if StartsWithFrame(s) then [FirstFrame(s)] + Frames(AfterFirstFrame(s)) else []
  }

  lemma FrameIsItsEncoding(s: Bytes)
    requires StartsWithFrame(s)
    ensures s == Encode(FirstFrame(s)) + AfterFirstFrame(s)
  {
    HeaderIsItsFields(s);
  }

  lemma EncodingStartsWithFrame(f: Frame, rest: Bytes)
    ensures StartsWithFrame(Encode(f) + rest)
    ensures FirstFrame(Encode(f) + rest) == f
    ensures AfterFirstFrame(Encode(f) + rest) == rest
  {
    var s := Encode(f) + rest;
    assert s == Header(|f.payload|, f.kind) + (f.payload + rest);
    HeaderFields(|f.payload|, f.kind, f.payload + rest);
  }

  lemma FramesCons(f: Frame, rest: Bytes)
    ensures Frames(Encode(f) + rest) == [f] + Frames(rest)
  {
    EncodingStartsWithFrame(f, rest);
  }

  /** The encoding is uniquely decodable: parsing gives back exactly the frames
      encoded, then whatever follows them. */
  lemma {:induction false} FramesOfEncoding(fs: seq<Frame>, rest: Bytes)
    ensures Frames(EncodeAll(fs) + rest) == fs + Frames(rest)
  {
    if fs == [] {
      assert EncodeAll(fs) + rest == rest;
    } else {
      var tail := EncodeAll(fs[1..]) + rest;
      assert EncodeAll(fs) + rest == Encode(fs[0]) + tail;
      FramesOfEncoding(fs[1..], rest);
      FramesCons(fs[0], tail);
      ConsConcat(fs, Frames(rest));
    }
  }
}
