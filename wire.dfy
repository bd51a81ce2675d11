/** The wire framing of the game protocol: a 4-byte little-endian signed
    length, one unsigned message-type byte, then the message body. */
module Wire {

  import opened Wrappers

  /** One octet as received from a socket. */
  type Byte = b: int | 0 <= b < 256

  /** Size of the length prefix (`recv(4)`). */
  const HeaderSize: nat := 4

  const Int32Min: int := -0x8000_0000
  const Int32Max: int := 0x7FFF_FFFF
  const TwoTo32: int := 0x1_0000_0000

  predicate InInt32(n: int) {
    Int32Min <= n <= Int32Max
  }

  /** The four header bytes read as an unsigned little-endian integer. */
  function Unsigned32(h: seq<Byte>): (u: nat)
    requires |h| == HeaderSize
    ensures u < TwoTo32
  {
    (h[0] as int) + 256 * (h[1] as int) + 65536 * (h[2] as int) + 16777216 * (h[3] as int)
  }

  /** The header read with the format `<i`: little-endian two's complement.
      The result is the only 32-bit signed value congruent to the unsigned
      reading modulo 2^32, and it is negative exactly when the top bit of
      the last byte is set. */
  function DecodeLength(h: seq<Byte>): (n: int)
    requires |h| == HeaderSize
    ensures InInt32(n)
    ensures n % TwoTo32 == Unsigned32(h)
    ensures n < 0 <==> h[3] >= 128
  {
    var u := Unsigned32(h);
    if h[3] >= 128 then u - TwoTo32 else u
  }

  /** The header written with the format `<i`: the inverse of the `<i`
      reading, used to state the round trips of the framing. */
  function EncodeLength(n: int): (h: seq<Byte>)
    requires InInt32(n)
    ensures |h| == HeaderSize
    ensures Unsigned32(h) == n % TwoTo32
    ensures h[3] >= 128 <==> n < 0
  {
    var u := if n < 0 then n + TwoTo32 else n;
    assert u == n % TwoTo32;
    var q1 := u / 256;
    var q2 := q1 / 256;
    var q3 := q2 / 256;
    assert u == 256 * q1 + u % 256 && q1 == 256 * q2 + q1 % 256 && q2 == 256 * q3 + q2 % 256;
    assert q1 < 0x100_0000 && q2 < 0x1_0000 && q3 < 0x100;
    [u % 256, q1 % 256, q2 % 256, q3]
  }

  /** Decoding undoes encoding on every 32-bit signed length. */
  lemma DecodeEncode(n: int)
    requires InInt32(n)
    ensures DecodeLength(EncodeLength(n)) == n
  {
    var h := EncodeLength(n);
    assert DecodeLength(h) % TwoTo32 == n % TwoTo32;
  }

  /** Encoding undoes decoding on every 4-byte header. */
  lemma EncodeDecode(h: seq<Byte>)
    requires |h| == HeaderSize
    ensures EncodeLength(DecodeLength(h)) == h
  {
    var n := DecodeLength(h);
    var u := Unsigned32(h);
    assert n % TwoTo32 == u;
    var e := EncodeLength(n);
    assert e[0] == h[0] && e[1] == h[1] && e[2] == h[2] && e[3] == h[3];
  }

  /** A decoded inbound message: its type tag and its raw body. */
  datatype Message = Message(msgType: Byte, body: seq<Byte>)

  /** The split of the received data into the type byte `data[0]` (format
      `<B`) and the body `data[1:]`; None where `data[0]` raises because
      nothing was received. */
  function SplitPayload(data: seq<Byte>): (m: Option<Message>)
    ensures m.None? <==> data == []
    ensures m.Some? ==> [m.value.msgType] + m.value.body == data
  {
    if data == [] then None else Some(Message(data[0], data[1..]))
  }

  /** The bytes that follow the header of a frame carrying `m`. */
  function Payload(m: Message): (data: seq<Byte>)
    ensures |data| == 1 + |m.body|
    ensures SplitPayload(data) == Some(m)
  {
    [m.msgType] + m.body
  }

  /** A whole frame: the length counts the type byte and the body. */
  function EncodeFrame(m: Message): (f: seq<Byte>)
    requires 1 + |m.body| <= Int32Max
    ensures |f| == HeaderSize + 1 + |m.body|
    ensures DecodeLength(f[..HeaderSize]) == |f| - HeaderSize
    ensures SplitPayload(f[HeaderSize..]) == Some(m)
  {
    var n := 1 + |m.body|;
    DecodeEncode(n);
    var f := EncodeLength(n) + Payload(m);
    assert f[..HeaderSize] == EncodeLength(n);
    assert f[HeaderSize..] == Payload(m);
    f
  }
}
