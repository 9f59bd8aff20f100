/** WebSocket frame layout (RFC 6455, section 5.2 base framing and section 5.3
    masking) as the hand-written codec of the task service writes and reads it:
    always FIN, one frame per message, a 7-bit, 16-bit or 64-bit payload length,
    an optional 4-byte masking key. */
module WsFrame {
  import opened Wrappers

  /** An octet, held as the integer it denotes. */
  type byte = x: int | 0 <= x < 256

  /** A 4-byte masking key. */
  type Mask = s: seq<byte> | |s| == 4 witness [0, 0, 0, 0]

  const OpText: byte := 0x1
  const OpClose: byte := 0x8
  const OpPing: byte := 0x9
  const OpPong: byte := 0xA

  /** b & 0x0F: the opcode bits of the first header byte. */
  function Low4(b: byte): byte { b % 16 }

  /** b & 0x7F: the 7-bit length of the second header byte. */
  function Low7(b: byte): byte { b % 128 }

  /** b & 0x80 != 0: FIN in the first header byte, the mask bit in the second. */
  predicate HighBit(b: byte) { b >= 128 }

  /** 0x80 | (opcode & 0x0F): FIN set, no RSV bits, the opcode. */
  function FinByte(opcode: byte): (b: byte)
    ensures HighBit(b) && Low4(b) == Low4(opcode)
  {
    128 + Low4(opcode)
  }

  /** The largest payload the reader accepts: 32 MiB. */
  const MaxPayload: nat := 32 * 1024 * 1024

  const TwoTo63: nat := 0x8000_0000_0000_0000
  const TwoTo64: nat := 0x1_0000_0000_0000_0000

  datatype Frame = Frame(opcode: byte, payload: seq<byte>)

  /** Why a frame could not be read: the stream ended before the first byte
      of a read (io.EOF), in the middle of one (io.ErrUnexpectedEOF), or the
      declared payload length is over the ceiling. */
  datatype ReadError = Eof | UnexpectedEof | PayloadTooLarge

  /** The outcome of reading one frame from a byte stream, with the number of
      stream bytes the reader consumed. */
  datatype Step<+T> =
    | Read(value: T, used: nat)
    | Fail(error: ReadError, used: nat)

  /** What the fixed part of the header says: the opcode bits, whether a
      masking key follows, and the payload length read as int64. */
  datatype Header = Header(opcode: byte, masked: bool, length: int)

  function Pow256(w: nat): (p: nat)
    ensures p >= 1
  {
    if w == 0 then 1 else 256 * Pow256(w - 1)
  }

  /** binary.BigEndian.PutUint16 / PutUint64: the low `w` bytes of `n`, most
      significant first. */
  function BigEndian(n: nat, w: nat): (r: seq<byte>)
    ensures |r| == w
  {
    if w == 0 then [] else BigEndian(n / 256, w - 1) + [n % 256]
  }

  lemma DivBound(n: nat, p: nat)
    requires n < 256 * p
    ensures n / 256 < p
  {
  }

  /** binary.BigEndian.Uint16 / Uint64 */
  function FromBigEndian(s: seq<byte>): (n: nat)
    ensures n < Pow256(|s|)
  {
    if s == [] then 0 else FromBigEndian(s[..|s| - 1]) * 256 + s[|s| - 1]
  }

  lemma {:induction false} BigEndianRoundTrip(n: nat, w: nat)
    requires n < Pow256(w)
    ensures FromBigEndian(BigEndian(n, w)) == n
  {
    if w > 0 {
      var s := BigEndian(n, w);
      var q, d := n / 256, n % 256;
      assert n == q * 256 + d;
      DivBound(n, Pow256(w - 1));
      assert s[..|s| - 1] == BigEndian(q, w - 1);
      assert s[|s| - 1] == d;
      BigEndianRoundTrip(q, w - 1);
    }
  }

  /** Two's-complement reading of an unsigned 64-bit value (Go's int64(u)). */
  function ToInt64(u: nat): (v: int)
    requires u < TwoTo64
    ensures -(TwoTo63 as int) <= v < TwoTo63
    ensures v < 0 <==> u >= TwoTo63
    ensures v >= 0 ==> v == u
  {
    if u >= TwoTo63 then u - TwoTo64 else u
  }

  /** The reader's size test `length < 0 || length > 32 MiB`, applied to a length
      read as int64, rejects exactly the unsigned lengths over the ceiling. */
  lemma TooLargeIffOverCeiling(u: nat)
    requires u < TwoTo64
    ensures (ToInt64(u) < 0 || ToInt64(u) > MaxPayload) <==> u > MaxPayload
  {
  }

  function Pow2(w: nat): (p: nat)
    ensures p >= 1
  {
    if w == 0 then 1 else 2 * Pow2(w - 1)
  }

  /** Bitwise exclusive or of the low `w` bits of `a` and `b`, built from the
      least significant bit up. */
  function XorBits(a: nat, b: nat, w: nat): (r: nat)
    ensures r < Pow2(w)
  {
    if w == 0 then 0
    else 2 * XorBits(a / 2, b / 2, w - 1) + (if a % 2 == b % 2 then 0 else 1)
  }

  /** The low `w` bits of `a`, rebuilt bit by bit. */
  function LowBits(a: nat, w: nat): nat
  {
    if w == 0 then 0 else 2 * LowBits(a / 2, w - 1) + a % 2
  }

  lemma {:induction false} LowBitsId(a: nat, w: nat)
    requires a < Pow2(w)
    ensures LowBits(a, w) == a
  {
    if w > 0 {
      LowBitsId(a / 2, w - 1);
    }
  }

  lemma HalfOf(x: nat, y: nat, bit: nat)
    requires bit < 2 && x == 2 * y + bit
    ensures x / 2 == y && x % 2 == bit
  {
  }

  /** XOR with the same operand twice restores the low bits. */
  lemma {:induction false} XorBitsCancel(a: nat, b: nat, w: nat)
    ensures XorBits(XorBits(a, b, w), b, w) == LowBits(a, w)
  {
    if w > 0 {
      var x := XorBits(a, b, w);
      var y := XorBits(a / 2, b / 2, w - 1);
      var bit := if a % 2 == b % 2 then 0 else 1;
      assert x == 2 * y + bit;
      HalfOf(x, y, bit);
      XorBitsCancel(a / 2, b / 2, w - 1);
      assert (if x % 2 == b % 2 then 0 else 1) == a % 2;
    }
  }

  /** a ^ b on bytes. */
  function Xor(a: byte, b: byte): byte
  {
    assert Pow2(8) == 256;
    XorBits(a, b, 8)
  }

  lemma XorCancel(a: byte, b: byte)
    ensures Xor(Xor(a, b), b) == a
  {
    assert Pow2(8) == 256;
    XorBitsCancel(a, b, 8);
    LowBitsId(a, 8);
  }

  /** Byte i of the result is byte i of the input XOR key byte i mod 4. */
  function MaskBytes(p: seq<byte>, key: Mask): (r: seq<byte>)
    ensures |r| == |p|
    ensures forall i :: 0 <= i < |p| ==> r[i] == Xor(p[i], key[i % 4])
  {
    seq(|p|, i requires 0 <= i < |p| => Xor(p[i], key[i % 4]))
  }

  /** Masking twice with the same key gives back the input. */
  lemma MaskInvolution(p: seq<byte>, key: Mask)
    ensures MaskBytes(MaskBytes(p, key), key) == p
  {
    var q := MaskBytes(MaskBytes(p, key), key);
    forall i | 0 <= i < |p| ensures q[i] == p[i] {
      XorCancel(p[i], key[i % 4]);
    }
  }

  /** The mask bit of the second header byte. */
  function MaskBit(masked: bool): byte {
    if masked then 0x80 else 0
  }

  /** The second header byte and the extended length that follow the first:
      a literal below 126, 126 and two bytes up to 65535, else 127 and eight
      bytes (the length taken modulo 2^64, as uint64(len) does). */
  function LengthField(masked: bool, n: nat): (r: seq<byte>)
    ensures |r| == HeaderSize(n) - 1
    ensures HighBit(r[0]) == masked
    ensures n < 126 ==> Low7(r[0]) == n
    ensures 126 <= n <= 65535 ==> Low7(r[0]) == 126 && FromBigEndian(r[1..]) == n
    ensures 65535 < n ==> Low7(r[0]) == 127 && FromBigEndian(r[1..]) == n % TwoTo64
  {
    if n < 126 then
      [SecondByte(masked, n)]
    else if n <= 65535 then
      BigEndianRoundTrip(n, 2);
      [SecondByte(masked, 126)] + BigEndian(n, 2)
    else
      assert Pow256(8) == TwoTo64;
      BigEndianRoundTrip(n % TwoTo64, 8);
      [SecondByte(masked, 127)] + BigEndian(n % TwoTo64, 8)
  }

  /** MaskBit(masked) | n for a 7-bit n. */
  function SecondByte(masked: bool, n: nat): (b: byte)
    requires n < 128
    ensures HighBit(b) == masked && Low7(b) == n
  {
    MaskBit(masked) + n
  }

  /** The header length for a payload of `n` bytes, mask key excluded. */
  function HeaderSize(n: nat): (h: nat)
    ensures h == 2 || h == 4 || h == 10
  {
    if n < 126 then 2 else if n <= 65535 then 4 else 10
  }

  /** A whole frame: FIN and the opcode's low four bits, the length field,
      then the key and the masked payload when a key is given, otherwise the
      payload as it is (the form servers send). */
  function EncodeWith(opcode: byte, payload: seq<byte>, key: Option<Mask>): (r: seq<byte>)
    ensures |r| == HeaderSize(|payload|) + (if key.Some? then 4 else 0) + |payload|
    ensures r[0] == FinByte(opcode)
    ensures r[1..HeaderSize(|payload|)] == LengthField(key.Some?, |payload|)
  {
    var n := |payload|;
    var lf := LengthField(key.Some?, n);
    var r := [FinByte(opcode)] + lf
      + (match key
         case Some(k) => k + MaskBytes(payload, k)
         case None => payload);
    assert r[1..HeaderSize(n)] == lf;
    r
  }

  /** What the client writes for one frame (writeFrame): FIN, the opcode, the
      mask bit always set, the three-tier length, the key, the masked payload. */
  function EncodeFrame(opcode: byte, payload: seq<byte>, mask: Mask): (r: seq<byte>)
    ensures |r| == HeaderSize(|payload|) + 4 + |payload|
    ensures r[0] == FinByte(opcode)
    ensures HighBit(r[1])
    ensures |payload| < 126 ==> Low7(r[1]) == |payload|
    ensures 126 <= |payload| <= 65535 ==>
      Low7(r[1]) == 126 && FromBigEndian(r[2..4]) == |payload|
    ensures 65535 < |payload| ==>
      Low7(r[1]) == 127 && FromBigEndian(r[2..10]) == |payload| % TwoTo64
    ensures r[HeaderSize(|payload|)..HeaderSize(|payload|) + 4] == mask
    ensures r[HeaderSize(|payload|) + 4..] == MaskBytes(payload, mask)
  {
    var h := HeaderSize(|payload|);
    var lf := LengthField(true, |payload|);
    var r := EncodeWith(opcode, payload, Some(mask));
    assert r == [FinByte(opcode)] + lf + mask + MaskBytes(payload, mask);
    assert r[1] == lf[0];
    assert r[2..h] == lf[1..];
    assert r[h..h + 4] == mask;
    assert r[h + 4..] == MaskBytes(payload, mask);
    r
  }

  /** The four parts of an encoded client frame, in order. */
  lemma EncodeFrameParts(opcode: byte, payload: seq<byte>, mask: Mask)
    ensures EncodeFrame(opcode, payload, mask)
         == [FinByte(opcode)] + LengthField(true, |payload|) + mask + MaskBytes(payload, mask)
  {
  }

  /** Stream state after a short read: nothing at all left is io.EOF,
      a partial read is io.ErrUnexpectedEOF. */
  function ShortRead(rest: seq<byte>): ReadError {
    if rest == [] then Eof else UnexpectedEof
  }

  /** How many extended-length bytes follow the second header byte. */
  function ExtSize(b1: byte): (e: nat)
    ensures e == 0 || e == 2 || e == 8
  {
    if Low7(b1) == 126 then 2 else if Low7(b1) == 127 then 8 else 0
  }

  /** The payload length the header declares, read as int64, from the
      second header byte and the extended-length bytes after it. */
  function DeclaredLength(b1: byte, ext: seq<byte>): int
    requires |ext| == ExtSize(b1)
  {
    var e := ExtSize(b1);
    if e == 0 then Low7(b1)
    else if e == 2 then FromBigEndian(ext)
    else
      assert Pow256(8) == TwoTo64;
      ToInt64(FromBigEndian(ext))
  }

  /** The first part of readFrame: two base header bytes, then the extended
      length when the 7-bit field says 126 or 127. */
  function ParseHeader(s: seq<byte>): (r: Step<Header>)
    ensures r.used <= |s|
    ensures r.Read? ==> |s| >= 2 && r.used == 2 + ExtSize(s[1])
  {
    if |s| < 2 then Fail(ShortRead(s), |s|)
    else
      var p := 2 + ExtSize(s[1]);
      if |s| < p then Fail(ShortRead(s[2..]), |s|)
      else Read(Header(Low4(s[0]), HighBit(s[1]), DeclaredLength(s[1], s[2..p])), p)
  }

  /** The rest of readFrame over the bytes after the header: the masking key
      only when the mask bit is set, the size test, then the payload,
      unmasked when a key was read. */
  function ParseBody(t: seq<byte>, masked: bool, length: int): (r: Step<seq<byte>>)
    ensures r.used <= |t|
  {
    var k := if masked then 4 else 0;
    if |t| < k then Fail(ShortRead(t), |t|)
    else if length < 0 || length > MaxPayload then Fail(PayloadTooLarge, k)
    else if |t| < k + length then Fail(ShortRead(t[k..]), |t|)
    else
      var raw := t[k..k + length];
      Read(if masked then MaskBytes(raw, t[..4]) else raw, k + length)
  }

  /** readFrame over the bytes still to come. RSV bits and FIN are not
      looked at. */
  function ParseFrame(s: seq<byte>): (r: Step<Frame>)
    ensures r.used <= |s|
    ensures r.Read? ==> r.used >= 2
  {
    match ParseHeader(s)
    case Fail(e, u) => Fail(e, u)
    case Read(h, u) =>
      match ParseBody(s[u..], h.masked, h.length)
      case Fail(e, v) => Fail(e, u + v)
      case Read(p, v) => Read(Frame(h.opcode, p), u + v)
  }

  /** An encoded header reads back as written: the opcode's low four bits,
      the mask bit, and the length (as int64, so a length of 2^63 or more
      comes back negative), whatever bytes follow it. */
  lemma {:induction false} HeaderRoundTrip(opcode: byte, n: nat, masked: bool, s: seq<byte>)
    requires n < TwoTo64
    requires |s| >= HeaderSize(n)
    requires s[..HeaderSize(n)] == [FinByte(opcode)] + LengthField(masked, n)
    ensures ParseHeader(s) == Read(Header(Low4(opcode), masked, ToInt64(n)), HeaderSize(n))
  {
    var lf := LengthField(masked, n);
    var h := HeaderSize(n);
    assert s[0] == (s[..h])[0];
    assert s[1] == (s[..h])[1] == lf[0];
    assert s[2..h] == (s[..h])[2..] == lf[1..];
    if n > 65535 {
      assert n % TwoTo64 == n;
    }
  }

  /** A masked frame reads back as written, whatever bytes follow it. */
  lemma {:induction false} MaskedRoundTrip(opcode: byte, payload: seq<byte>, m: Mask, rest: seq<byte>)
    requires |payload| <= MaxPayload
    ensures ParseFrame(EncodeWith(opcode, payload, Some(m)) + rest)
         == Read(Frame(Low4(opcode), payload), |EncodeWith(opcode, payload, Some(m))|)
  {
    var n := |payload|;
    var h := HeaderSize(n);
    var head := [FinByte(opcode)] + LengthField(true, n);
    var body := MaskBytes(payload, m);
    var s := head + m + body + rest;
    assert EncodeWith(opcode, payload, Some(m)) + rest == s;
    assert ParseHeader(s) == Read(Header(Low4(opcode), true, n), h) by {
      assert s[..h] == head;
      HeaderRoundTrip(opcode, n, true, s);
      assert ToInt64(n) == n;
    }
    assert ParseBody(s[h..], true, n) == Read(payload, 4 + n) by {
      assert s[h..] == m + body + rest;
      BodyRoundTrip(payload, m, rest);
    }
  }

  lemma BodyRoundTrip(payload: seq<byte>, m: Mask, rest: seq<byte>)
    requires |payload| <= MaxPayload
    ensures ParseBody(m + MaskBytes(payload, m) + rest, true, |payload|) == Read(payload, 4 + |payload|)
  {
    var n := |payload|;
    var t := m + MaskBytes(payload, m) + rest;
    assert t[..4] == m;
    assert t[4..4 + n] == MaskBytes(payload, m);
    MaskInvolution(payload, m);
  }

  /** An unmasked frame, as servers send them, reads back as written. */
  lemma {:induction false} PlainRoundTrip(opcode: byte, payload: seq<byte>, rest: seq<byte>)
    requires |payload| <= MaxPayload
    ensures ParseFrame(EncodeWith(opcode, payload, None) + rest)
         == Read(Frame(Low4(opcode), payload), |EncodeWith(opcode, payload, None)|)
  {
    var n := |payload|;
    var h := HeaderSize(n);
    var head := [FinByte(opcode)] + LengthField(false, n);
    var s := head + payload + rest;
    assert EncodeWith(opcode, payload, None) + rest == s;
    assert ParseHeader(s) == Read(Header(Low4(opcode), false, n), h) by {
      assert s[..h] == head;
      HeaderRoundTrip(opcode, n, false, s);
      assert ToInt64(n) == n;
    }
    assert ParseBody(s[h..], false, n) == Read(payload, n) by {
      var t := s[h..];
      assert t == payload + rest;
      assert t[..n] == payload;
    }
  }

  /** Reading back what the encoder wrote, with or without a key and whatever
      bytes follow, gives the opcode's low four bits and the original payload,
      and consumes exactly the frame. This covers every length up to the
      ceiling, so each tier boundary (125/126, 65535/65536) in particular. */
  lemma RoundTrip(opcode: byte, payload: seq<byte>, key: Option<Mask>, rest: seq<byte>)
    requires |payload| <= MaxPayload
    ensures ParseFrame(EncodeWith(opcode, payload, key) + rest)
         == Read(Frame(Low4(opcode), payload), |EncodeWith(opcode, payload, key)|)
  {
    match key
    case Some(m) => MaskedRoundTrip(opcode, payload, m, rest);
    case None => PlainRoundTrip(opcode, payload, rest);
  }

  /** The client's own frames read back the same way. */
  lemma ClientFrameRoundTrip(opcode: byte, payload: seq<byte>, mask: Mask, rest: seq<byte>)
    requires |payload| <= MaxPayload
    ensures ParseFrame(EncodeFrame(opcode, payload, mask) + rest)
         == Read(Frame(Low4(opcode), payload), HeaderSize(|payload|) + 4 + |payload|)
  {
    RoundTrip(opcode, payload, Some(mask), rest);
  }

  /** A header declaring more than 32 MiB (as unsigned, or negative as int64)
      is refused once the header and any key are read: no payload byte is
      consumed, whatever follows and however short it is. */
  lemma {:induction false} OversizedRejected(opcode: byte, n: nat, key: Option<Mask>, rest: seq<byte>)
    requires MaxPayload < n < TwoTo64
    ensures var k := if key.Some? then key.value else [];
      ParseFrame([FinByte(opcode)] + LengthField(key.Some?, n) + k + rest)
      == Fail(PayloadTooLarge, HeaderSize(n) + |k|)
  {
    var k := if key.Some? then key.value else [];
    var head := [FinByte(opcode)] + LengthField(key.Some?, n);
    var s := head + k + rest;
    assert s[..HeaderSize(n)] == head;
    HeaderRoundTrip(opcode, n, key.Some?, s);
    var t := s[HeaderSize(n)..];
    assert t == k + rest;
    assert ParseBody(t, key.Some?, ToInt64(n)) == Fail(PayloadTooLarge, |k|) by {
      TooLargeIffOverCeiling(n);
    }
  }
}
