/**
 The wire format of src/socket.c: a 12-byte header, the message header and the
 payload, back to back; and what a receiver can conclude from a prefix of the
 stream.
 */
module Framing {
  import opened Options
  import opened ByteOrder

  const HEADER_LEN: nat := 12
  const MAX_HDR: nat := 1048576
  const MAX_PAYLOAD: nat := 131072
  const MAX_VECTORS: nat := 14          // MAX_IOVEC - 2

  /** What the caller of socket_submit hands over: a header buffer and payload vectors. */
  datatype Message = Message(hdr: seq<Byte>, payload: seq<seq<Byte>>)

  /** What socket_receive hands out. */
  datatype Delivered = Delivered(hdr: seq<Byte>, payload: seq<Byte>)

  function Flat(v: seq<seq<Byte>>): seq<Byte> {
    if v == [] then [] else v[0] + Flat(v[1..])
  }

  function AsDelivered(m: Message): Delivered { Delivered(m.hdr, Flat(m.payload)) }

  /** The lengths fit their header fields (`int len`, 32-bit sizes) and the vectors fit the entry. */
  predicate Representable(m: Message) {
    |m.hdr| < 0x8000_0000 && |Flat(m.payload)| < 0x1_0000_0000 && |m.payload| <= MAX_VECTORS
  }

  /** The receiver accepts these lengths. */
  predicate Acceptable(hdr: nat, payload: nat) { 0 < hdr <= MAX_HDR && payload <= MAX_PAYLOAD }

  predicate Sendable(m: Message) { Representable(m) && Acceptable(|m.hdr|, |Flat(m.payload)|) }

  /** `struct socket_header` as written by a host of the given byte order. */
  function HeaderBytes(little: bool, size1: U32, size2: U32): (h: seq<Byte>)
    ensures |h| == HEADER_LEN
  {
    [58, 79, 0] + Store32(little, Hton32(little, size1)) + Store32(little, Hton32(little, size2)) + [42]
  }

  /** `__socket_proto_validate_header` on a host of the given byte order. */
  function Validate(little: bool, h: seq<Byte>): Option<(nat, nat)>
    requires |h| == HEADER_LEN
  {
    if h[..3] != [58, 79, 0] || h[11] != 42 then None else
    var size1 := Hton32(little, Load32(little, h[3..7]));
    var size2 := Hton32(little, Load32(little, h[7..11]));
    if size1 <= 0 || size1 > MAX_HDR || size2 > MAX_PAYLOAD then None else Some((size1, size2))
  }

  /** If there is a whole header and it is accepted, the payload it announces fits a page. */
  predicate Roomy(little: bool, page: nat, bytes: seq<Byte>) {
    |bytes| >= HEADER_LEN ==>
      match Validate(little, bytes[..HEADER_LEN])
      case None => true
      case Some(sizes) => sizes.1 <= page
  }

  /** The header on the wire, whatever the byte order of the host: magic, the two lengths with the most
      significant byte first, version. */
  lemma HeaderLayout(little: bool, size1: U32, size2: U32)
    ensures var h := HeaderBytes(little, size1, size2);
            h[..3] == [58, 79, 0] && h[3..7] == BigEndian(size1) && h[7..11] == BigEndian(size2) && h[11] == 42
  {
    hide Hton32, Store32, BigEndian;
    NetworkOrder(little, size1);
    NetworkOrder(little, size2);
  }

  /** Whatever the byte orders of the two hosts, the receiver accepts exactly the headers whose
      lengths are acceptable, and reads back the lengths that were written. */
  lemma HeaderRoundTrip(writer: bool, reader: bool, size1: U32, size2: U32)
    ensures Validate(reader, HeaderBytes(writer, size1, size2)) ==
            if Acceptable(size1, size2) then Some((size1, size2)) else None
  {
    hide Hton32, Load32, Store32, BigEndian, HeaderBytes;
    HeaderLayout(writer, size1, size2);
    NetworkOrder(reader, size1);
    NetworkOrder(reader, size2);
  }

  /** And it accepts nothing else: not another magic, not another version, not another length. */
  lemma {:induction false} AcceptsOnly(writer: bool, reader: bool, h: seq<Byte>, size1: U32, size2: U32)
    requires |h| == HEADER_LEN
    ensures Validate(reader, h) == Some((size1, size2)) <==>
            0 < size1 <= 1048576 && size2 <= 131072 && h == HeaderBytes(writer, size1, size2)
  {
    hide Hton32, Load32, Store32, BigEndian, HeaderBytes;
    HeaderRoundTrip(writer, reader, size1, size2);
    if Validate(reader, h) == Some((size1, size2)) {
      var x := Spelled(h[3..7]);
      var y := Spelled(h[7..11]);
      NetworkOrder(reader, x);
      NetworkOrder(reader, y);
      HeaderLayout(writer, size1, size2);
      SameHeader(h, HeaderBytes(writer, size1, size2));
    }
  }

  lemma {:induction false} SameHeader(h: seq<Byte>, g: seq<Byte>)
    requires |h| == |g| == HEADER_LEN
    requires h[..3] == g[..3] && h[3..7] == g[3..7] && h[7..11] == g[7..11] && h[11] == g[11]
    ensures h == g
  {
    assert h == h[..3] + h[3..7] + h[7..11] + [h[11]] && g == g[..3] + g[3..7] + g[7..11] + [g[11]];
  }

  function Head(little: bool, m: Message): seq<Byte>
    requires Representable(m)
  {
    HeaderBytes(little, |m.hdr|, |Flat(m.payload)|)
  }

  function Frame(little: bool, m: Message): seq<Byte>
    requires Representable(m)
  {
    Head(little, m) + (m.hdr + Flat(m.payload))
  }

  /** A frame is the header, then the message header, then the payload vectors one after the other. */
  lemma {:induction false} FrameLayout(little: bool, m: Message)
    requires Representable(m)
    ensures var f := Frame(little, m); var n := HEADER_LEN + |m.hdr|;
            && |f| == n + |Flat(m.payload)| && f[..3] == [58, 79, 0] && f[11] == 42
            && f[3..7] == BigEndian(|m.hdr|) && f[7..11] == BigEndian(|Flat(m.payload)|)
            && f[HEADER_LEN..n] == m.hdr && f[n..] == Flat(m.payload)
  {
    hide HeaderBytes, BigEndian, Flat;
    HeaderLayout(little, |m.hdr|, |Flat(m.payload)|);
    var f, h := Frame(little, m), Head(little, m);
    assert f[..3] == h[..3] && f[3..7] == h[3..7] && f[7..11] == h[7..11] && f[11] == h[11];
  }

  lemma {:induction false} FlatJoin(a: seq<seq<Byte>>, b: seq<seq<Byte>>, p: seq<Byte>)
    ensures Flat(a + b) == Flat(a) + Flat(b) && Flat([p]) == p && Flat([]) == []
  {
    assert [p][1..] == [] && p + [] == p;
    if a == [] {
      assert a + b == b;
    } else {
      FlatJoin(a[1..], b, p);
      assert (a + b)[1..] == a[1..] + b;
    }
  }

  ghost predicate AllRepresentable(ms: seq<Message>) { forall m :: m in ms ==> Representable(m) }

  /** The bytes of a sequence of messages. */
  function Stream(little: bool, ms: seq<Message>): seq<Byte>
    requires forall m :: m in ms ==> Representable(m)
  {
    if ms == [] then [] else Frame(little, ms[0]) + Stream(little, ms[1..])
  }

  lemma {:induction false} StreamSplit(little: bool, ms: seq<Message>, d: nat)
    requires AllRepresentable(ms) && d <= |ms|
    ensures Stream(little, ms) == Stream(little, ms[..d]) + Stream(little, ms[d..])
  {
    hide Frame, Representable;
    if d == 0 {
      assert ms[..0] == [] && ms[0..] == ms;
    } else {
      StreamSplit(little, ms[1..], d - 1);
      assert ms[1..][..d - 1] == ms[..d][1..] && ms[1..][d - 1..] == ms[d..] && ms[..d][0] == ms[0];
    }
  }

  lemma {:induction false} StreamAppend(little: bool, ms: seq<Message>, m: Message)
    requires AllRepresentable(ms) && Representable(m)
    ensures AllRepresentable(ms + [m]) && Stream(little, ms + [m]) == Stream(little, ms) + Frame(little, m)
  {
    var all := ms + [m];
    StreamSplit(little, all, |ms|);
    assert all[..|ms|] == ms && all[|ms|..] == [m];
    assert Stream(little, [m]) == Frame(little, m) + Stream(little, []);
  }

  lemma {:induction false} CancelPrefix<S>(lo: seq<S>, a: seq<S>, b: seq<S>)
    requires lo + a == lo + b
    ensures a == b
  {
    assert a == (lo + a)[|lo|..] && b == (lo + b)[|lo|..];
  }

  /** What has been read beyond the first `d` messages starts the frame of message `d`. */
  lemma {:induction false} NextFrame(little: bool, ms: seq<Message>, d: nat, part: seq<Byte>, tail: seq<Byte>)
    requires AllRepresentable(ms) && d <= |ms|
    requires Stream(little, ms[..d]) + part + tail == Stream(little, ms)
    ensures d == |ms| ==> part == [] && tail == []
    ensures d < |ms| ==> Representable(ms[d]) && part + tail == Frame(little, ms[d]) + Stream(little, ms[d + 1..])
  {
    StreamSplit(little, ms, d);
    assert Stream(little, ms[..d]) + part + tail == Stream(little, ms[..d]) + (part + tail);
    CancelPrefix(Stream(little, ms[..d]), part + tail, Stream(little, ms[d..]));
    if d < |ms| {
      assert ms[d..][0] == ms[d] && ms[d..][1..] == ms[d + 1..];
    }
  }

  /** The first twelve bytes of a frame are its header. */
  lemma {:induction false} NextHeader(little: bool, ms: seq<Message>, d: nat, part: seq<Byte>, tail: seq<Byte>)
    requires AllRepresentable(ms) && d <= |ms| && |part| >= HEADER_LEN
    requires Stream(little, ms[..d]) + part + tail == Stream(little, ms)
    ensures d < |ms| && Representable(ms[d]) && part[..HEADER_LEN] == Head(little, ms[d])
  {
    hide Representable, Flat, HeaderBytes, Stream;
    NextFrame(little, ms, d, part, tail);
    var all := part + tail;
    assert part[..HEADER_LEN] == all[..HEADER_LEN];
    assert all == Head(little, ms[d]) + (ms[d].hdr + Flat(ms[d].payload) + Stream(little, ms[d + 1..]));
  }

  /** A complete frame has exactly the message's bytes. */
  lemma {:induction false} WholeFrame(little: bool, ms: seq<Message>, d: nat, part: seq<Byte>, tail: seq<Byte>)
    requires AllRepresentable(ms) && d < |ms| && Representable(ms[d]) && |part| == |Frame(little, ms[d])|
    requires Stream(little, ms[..d]) + part + tail == Stream(little, ms)
    ensures part == Frame(little, ms[d])
    ensures Stream(little, ms[..d + 1]) == Stream(little, ms[..d]) + part
  {
    NextFrame(little, ms, d, part, tail);
    assert part == (part + tail)[..|part|];
    assert part == (Frame(little, ms[d]) + Stream(little, ms[d + 1..]))[..|part|];
    assert ms[..d + 1] == ms[..d] + [ms[d]];
    StreamAppend(little, ms[..d], ms[d]);
  }
}
