/** HTTP/2 framing (section 4.1 of RFC 7540): a 9-byte header in front of each payload. */
module FrameCodec {
  import opened Machine

  const HEADER_SIZE := 9

  datatype FrameHeader = FrameHeader(length: U32, kind: Byte, flags: Byte, streamId: U32)
  datatype Frame = Frame(header: FrameHeader, payload: seq<Byte>)

  /** Byte `k` (0 the least significant) of a 32-bit number. */
  function ByteOf(n: U32, k: nat): Byte
    requires k < 4
  {
    (if k == 0 then n else if k == 1 then n / 0x100 else if k == 2 then n / 0x1_0000 else n / 0x100_0000) % 0x100
  }

  /** The header as it goes on the wire: 24 bits of length, and the reserved bit of the stream id cleared. */
  function EncodeHeader(h: FrameHeader): (r: seq<Byte>)
    ensures |r| == HEADER_SIZE
  {
    [ByteOf(h.length, 2), ByteOf(h.length, 1), ByteOf(h.length, 0), h.kind, h.flags,
     ByteOf(h.streamId, 3) % 0x80, ByteOf(h.streamId, 2), ByteOf(h.streamId, 1), ByteOf(h.streamId, 0)]
  }

  function DecodeHeader(b: seq<Byte>): FrameHeader
    requires |b| == HEADER_SIZE
  {
    var top: int := b[5] % 0x80;
    FrameHeader(b[0] as int * 0x1_0000 + b[1] as int * 0x100 + b[2], b[3], b[4],
                top * 0x100_0000 + b[6] as int * 0x1_0000 + b[7] as int * 0x100 + b[8])
  }

  // ----- one header -----

  /** Reading a written header gives its length modulo 2^24 and its stream id modulo 2^31. */
  lemma HeaderRoundTrip(h: FrameHeader)
    ensures DecodeHeader(EncodeHeader(h))
      == h.(length := h.length % 0x100_0000, streamId := h.streamId % 0x8000_0000)
  {
    hide ByteOf;
    BytesOf(h.length);
    BytesOf(h.streamId);
  }

  lemma BytesOf(n: U32)
    ensures n == ByteOf(n, 3) as int * 0x100_0000 + ByteOf(n, 2) as int * 0x1_0000 + ByteOf(n, 1) as int * 0x100 + ByteOf(n, 0)
    ensures n % 0x100_0000 == ByteOf(n, 2) as int * 0x1_0000 + ByteOf(n, 1) as int * 0x100 + ByteOf(n, 0)
    ensures n % 0x8000_0000 == ByteOf(n, 3) as int % 0x80 * 0x100_0000 + n % 0x100_0000
  {
    Quotients(n);
    var q := n / 0x100;
    var rest := q / 0x100 % 0x100 * 0x1_0000 + q % 0x100 * 0x100 + n % 0x100;
    assert n == n / 0x100_0000 * 0x100_0000 + rest;
    TopByte(n / 0x100_0000, rest);
  }

  lemma TopByte(top: Byte, rest: nat)
    requires rest < 0x100_0000
    ensures (top as int * 0x100_0000 + rest) % 0x100_0000 == rest
    ensures (top as int * 0x100_0000 + rest) % 0x8000_0000 == top as int % 0x80 * 0x100_0000 + rest
  {
    assert top as int == top as int / 0x80 * 0x80 + top as int % 0x80;
  }

  /** Shifting by bytes, one at a time. */
  lemma Quotients(n: U32)
    ensures n / 0x1_0000 == n / 0x100 / 0x100 && n / 0x100_0000 == n / 0x100 / 0x100 / 0x100
  {
  }

  lemma LowByte(q: nat, low: Byte)
    ensures (q * 0x100 + low) / 0x100 == q && (q * 0x100 + low) % 0x100 == low
  {
  }

  /** Writing back any header that was read changes nothing but the reserved bit. */
  lemma HeaderReencode(b: seq<Byte>)
    requires |b| == HEADER_SIZE
    ensures EncodeHeader(DecodeHeader(b)) == b[5 := b[5] % 0x80]
  {
    hide ByteOf;
    BigEndian(0, b[0], b[1], b[2]);
    BigEndian(b[5] % 0x80, b[6], b[7], b[8]);
  }

  lemma BigEndian(b3: Byte, b2: Byte, b1: Byte, b0: Byte)
    ensures var n := b3 as int * 0x100_0000 + b2 as int * 0x1_0000 + b1 as int * 0x100 + b0;
      ByteOf(n, 3) == b3 && ByteOf(n, 2) == b2 && ByteOf(n, 1) == b1 && ByteOf(n, 0) == b0
  {
    var q2 := b3 as int * 0x100 + b2;
    var q1 := q2 * 0x100 + b1;
    Quotients(q1 * 0x100 + b0);
    LowByte(q1, b0);
    LowByte(q2, b1);
    LowByte(b3, b2);
  }

  /** The wire format, byte by byte: length, type, flags and stream id, most significant bytes first. */
  lemma HeaderOnWire(b: seq<Byte>, length: U32, streamId: U32)
    requires |b| == 9
    requires length == b[0] as int * 0x1_0000 + b[1] as int * 0x100 + b[2]
    requires streamId == b[5] as int * 0x100_0000 + b[6] as int * 0x1_0000 + b[7] as int * 0x100 + b[8]
    ensures EncodeHeader(FrameHeader(length, b[3], b[4], streamId)) == b[5 := b[5] % 0x80]
  {
    hide ByteOf;
    BigEndian(0, b[0], b[1], b[2]);
    BigEndian(b[5], b[6], b[7], b[8]);
  }

  // ----- the byte stream -----

  /** What `http2_connection_send_frame` puts on the socket for a frame with its payload. */
  function EncodeFrame(f: Frame): seq<Byte> {
    EncodeHeader(f.header) + f.payload
  }

  function EncodeStream(fs: seq<Frame>): seq<Byte> {
    if fs == [] then [] else EncodeFrame(fs[0]) + EncodeStream(fs[1..])
  }

  datatype Received = Received(frame: Frame, rest: seq<Byte>)

  /** One `http2_connection_recv_frame` on what the peer sent before closing: both reads are all-or-nothing. */
  function RecvFrame(s: seq<Byte>): (r: Option<Received>)
    ensures r.Some? ==> |r.value.rest| < |s|
  {
    if |s| < HEADER_SIZE then None
    else
      var h := DecodeHeader(s[..HEADER_SIZE]);
      if |s| < HEADER_SIZE + h.length then None
      else Some(Received(Frame(h, s[HEADER_SIZE..HEADER_SIZE + h.length]), s[HEADER_SIZE + h.length..]))
  }

  /** All frames received until the stream is exhausted; `None` if it ends inside a frame. */
  function RecvAll(s: seq<Byte>): Option<seq<Frame>>
    decreases |s|
  {
    if s == [] then Some([])
    else match RecvFrame(s)
      case None => None
      case Some(r) => match RecvAll(r.rest)
        case None => None
        case Some(fs) => Some([r.frame] + fs)
  }

  ghost predicate Sendable(f: Frame) {
    |f.payload| == f.header.length < 0x100_0000 && f.header.streamId < 0x8000_0000
  }

  /** A frame announcing its payload length survives the wire exactly when both fields fit theirs. */
  lemma FrameRoundTrip(f: Frame, rest: seq<Byte>)
    requires |f.payload| == f.header.length
    ensures RecvFrame(EncodeFrame(f) + rest) == Some(Received(f, rest)) <==> Sendable(f)
  {
    hide DecodeHeader, EncodeHeader;
    var s := EncodeFrame(f) + rest;
    assert s[..HEADER_SIZE] == EncodeHeader(f.header);
    HeaderRoundTrip(f.header);
    assert s[HEADER_SIZE..HEADER_SIZE + |f.payload|] == f.payload;
    assert s[HEADER_SIZE + |f.payload|..] == rest;
  }

  /** A frame is received, reserved bit set or not, exactly when its header and as many bytes as it announces are there. */
  lemma ReceivedIff(s: seq<Byte>)
    ensures RecvFrame(s).Some? <==> |s| >= 9 && |s| >= 9 + s[0] as int * 0x1_0000 + s[1] as int * 0x100 + s[2]
  {
    hide EncodeHeader;
    if |s| >= 9 { assert s[..9][0] == s[0] && s[..9][1] == s[1] && s[..9][2] == s[2]; }
  }

  lemma {:induction false} StreamRoundTrip(fs: seq<Frame>)
    requires forall i :: 0 <= i < |fs| ==> Sendable(fs[i])
    ensures RecvAll(EncodeStream(fs)) == Some(fs)
  {
    hide EncodeFrame, RecvFrame;
    if fs != [] {
      StreamRoundTrip(fs[1..]);
      FrameRoundTrip(fs[0], EncodeStream(fs[1..]));
      assert RecvFrame(EncodeStream(fs)).Some? && fs == [fs[0]] + fs[1..];
    }
  }

  /** The same bytes, except that some top bits are cleared. */
  ghost predicate UpToTopBits(a: seq<Byte>, b: seq<Byte>) {
    |a| == |b| && forall i :: 0 <= i < |a| ==> a[i] == b[i] || a[i] as int + 0x80 == b[i]
  }

  lemma TopBitsConcat(a: seq<Byte>, b: seq<Byte>, c: seq<Byte>, d: seq<Byte>)
    requires UpToTopBits(a, b) && UpToTopBits(c, d)
    ensures UpToTopBits(a + c, b + d)
  {
  }

  lemma FrameReencode(s: seq<Byte>) returns (front: seq<Byte>)
    requires RecvFrame(s).Some?
    ensures var r := RecvFrame(s).value;
      s == front + r.rest && Sendable(r.frame) && UpToTopBits(EncodeFrame(r.frame), front)
  {
    hide DecodeHeader, EncodeHeader, UpToTopBits;
    var r, b := RecvFrame(s).value, s[..HEADER_SIZE];
    DecodedFits(b);
    HeaderReencode(b);
    ReservedBit(b);
    front := b + r.frame.payload;
    SameBytes(r.frame.payload);
    TopBitsConcat(b[5 := b[5] % 0x80], b, r.frame.payload, r.frame.payload);
  }

  lemma ReservedBit(b: seq<Byte>)
    requires |b| == HEADER_SIZE
    ensures UpToTopBits(b[5 := b[5] % 0x80], b)
  {
  }

  lemma SameBytes(b: seq<Byte>)
    ensures UpToTopBits(b, b)
  {
  }

  /** Conversely, whatever a byte stream is received as, sending it again clears reserved bits and changes nothing else. */
  lemma {:induction false} StreamReencode(s: seq<Byte>)
    requires RecvAll(s).Some?
    ensures var fs := RecvAll(s).value;
      (forall i :: 0 <= i < |fs| ==> Sendable(fs[i])) && UpToTopBits(EncodeStream(fs), s)
    decreases |s|
  {
    if s == [] {
      SameBytes(s);
    } else {
      hide RecvFrame, EncodeFrame, UpToTopBits;
      var r, fs := RecvFrame(s).value, RecvAll(s).value;
      var front := FrameReencode(s);
      StreamReencode(r.rest);
      assert fs[1..] == RecvAll(r.rest).value;
      TopBitsConcat(EncodeFrame(r.frame), front, EncodeStream(fs[1..]), r.rest);
    }
  }

  lemma DecodedFits(b: seq<Byte>)
    requires |b| == HEADER_SIZE
    ensures DecodeHeader(b).length < 0x100_0000 && DecodeHeader(b).streamId < 0x8000_0000
  {
  }

  // ----- WINDOW_UPDATE -----

  const WINDOW_UPDATE := 0x08

  function WindowUpdateFrame(streamId: U32, increment: U32): Frame {
    Frame(FrameHeader(4, WINDOW_UPDATE, 0, streamId),
          [ByteOf(increment, 3) % 0x80, ByteOf(increment, 2), ByteOf(increment, 1), ByteOf(increment, 0)])
  }

  function ReadIncrement(payload: seq<Byte>): int
    requires |payload| == 4
  {
    payload[0] as int * 0x100_0000 + payload[1] as int * 0x1_0000 + payload[2] as int * 0x100 + payload[3]
  }

  /** A WINDOW_UPDATE read off the wire is one, of type 8, and carries the stream and the increment it was sent with. */
  lemma WindowUpdateOnWire(streamId: U32, increment: U32, rest: seq<Byte>)
    requires streamId < 0x8000_0000 && 0 < increment <= INT_MAX
    ensures var f := WindowUpdateFrame(streamId, increment);
      && RecvFrame(EncodeFrame(f) + rest) == Some(Received(f, rest)) && ReadIncrement(f.payload) == increment
      && f.header.kind == 8 && f.header.streamId == streamId && f.header.length == |f.payload| == 4
  {
    hide EncodeFrame, RecvFrame;
    FrameRoundTrip(WindowUpdateFrame(streamId, increment), rest);
    BytesOf(increment);
  }

  /** Its thirteen bytes (section 6.9 of RFC 7540); `id` and `c` are stream id and increment, most significant byte first. */
  lemma WindowUpdateBytes(id: seq<Byte>, c: seq<Byte>, streamId: U32, increment: U32)
    requires |id| == |c| == 4 && id[0] < 0x80 && c[0] < 0x80
    requires streamId == id[0] as int * 0x100_0000 + id[1] as int * 0x1_0000 + id[2] as int * 0x100 + id[3]
    requires increment == c[0] as int * 0x100_0000 + c[1] as int * 0x1_0000 + c[2] as int * 0x100 + c[3]
    ensures EncodeFrame(WindowUpdateFrame(streamId, increment)) == [0, 0, 4, 8, 0] + id + c
  {
    hide ByteOf;
    BigEndian(c[0], c[1], c[2], c[3]);
    var b := [0, 0, 4, 8, 0] + id;
    HeaderOnWire(b, 4, streamId);
    assert b[5 := b[5] % 0x80] == b;
  }
}
