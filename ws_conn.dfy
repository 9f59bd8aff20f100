/** The client side of one WebSocket session (wsConn in the task service):
    the bytes the server sends, how far the reader has got, and everything the
    client has written. Socket writes always succeed in this model. */
module WsConn {
  import opened Wrappers
  import opened WsFrame

  /** What ReadText hands back: a text payload, end of stream for a close
      frame, or the read error that stopped it. */
  datatype TextOutcome = Text(payload: seq<byte>) | Closed | ReadFailed(error: ReadError)

  /** ReadText over the bytes still to come: the outcome, the payloads of the
      pings met on the way (each one answered by a pong), and the number of
      bytes consumed. */
  datatype TextRead = TextRead(outcome: TextOutcome, pings: seq<seq<byte>>, used: nat)

  /** The payload a frame adds to the pings answered: its own for a ping,
      none otherwise. */
  function PingsOf(f: Frame): seq<seq<byte>> {
    if f.opcode == OpPing then [f.payload] else []
  }

  /** `t` preceded by `n` bytes of frames that carried `pings`. */
  function After(pings: seq<seq<byte>>, n: nat, t: TextRead): TextRead {
    TextRead(t.outcome, pings + t.pings, n + t.used)
  }

  function ReadTextSpec(s: seq<byte>): (r: TextRead)
    ensures r.used <= |s|
    decreases |s|
  {
    match ParseFrame(s)
    case Fail(e, u) => TextRead(ReadFailed(e), [], u)
    case Read(f, u) =>
      if f.opcode == OpText then TextRead(Text(f.payload), [], u)
      else if f.opcode == OpClose then TextRead(Closed, [], u)
      else After(PingsOf(f), u, ReadTextSpec(s[u..]))
  }

  /** A frame that is neither text nor close is passed over. */
  lemma ReadTextStep(s: seq<byte>)
    requires ParseFrame(s).Read?
    requires ParseFrame(s).value.opcode != OpText && ParseFrame(s).value.opcode != OpClose
    ensures var p := ParseFrame(s);
      ReadTextSpec(s) == After(PingsOf(p.value), p.used, ReadTextSpec(s[p.used..]))
  {
  }

  /** A failure, a text frame or a close frame ends the call, with no ping
      after it. */
  lemma ReadTextStop(s: seq<byte>)
    requires var p := ParseFrame(s);
      p.Fail? || p.value.opcode == OpText || p.value.opcode == OpClose
    ensures var p := ParseFrame(s);
      ReadTextSpec(s) == TextRead(
        if p.Fail? then ReadFailed(p.error)
        else if p.value.opcode == OpText then Text(p.value.payload)
        else Closed,
        [], p.used)
  {
  }

  /** Whether ReadText returns on this result of readFrame. */
  predicate Stops(f: Result<Frame, ReadError>) {
    f.Failure? || f.value.opcode == OpText || f.value.opcode == OpClose
  }

  /** What ReadText returns when it stops on `f`. */
  function Outcome(f: Result<Frame, ReadError>): TextOutcome
    requires Stops(f)
  {
    if f.Failure? then ReadFailed(f.error)
    else if f.value.opcode == OpText then Text(f.value.payload)
    else Closed
  }

  /** One step of ReadTextSpec, seen through the result `f` of readFrame and
      the number `u` of bytes it consumed. */
  lemma ReadTextOnFrame(s: seq<byte>, f: Result<Frame, ReadError>, u: nat, t: seq<byte>)
    requires var p := ParseFrame(s);
      u == p.used && f == (if p.Read? then Success(p.value) else Failure(p.error))
    requires u <= |s| && t == s[u..]
    ensures if Stops(f) then ReadTextSpec(s) == TextRead(Outcome(f), [], u)
      else (f.Success? && 0 < u
            && ReadTextSpec(s) == After(PingsOf(f.value), u, ReadTextSpec(t)))
  {
    if Stops(f) {
      ReadTextStop(s);
    } else {
      ReadTextStep(s);
    }
  }

  lemma AfterNothing(t: TextRead)
    ensures After([], 0, t) == t
  {
    assert [] + t.pings == t.pings;
  }

  lemma AfterStop(pings: seq<seq<byte>>, n: nat, t: TextRead)
    requires t.pings == []
    ensures After(pings, n, t).pings == pings
  {
    assert pings + [] == pings;
  }

  lemma AfterAfter(a: seq<seq<byte>>, m: nat, b: seq<seq<byte>>, n: nat, t: TextRead)
    ensures After(a, m, After(b, n, t)) == After(a + b, m + n, t)
  {
    assert a + (b + t.pings) == (a + b) + t.pings;
  }

  function Pongs(pings: seq<seq<byte>>, masks: nat -> Mask): seq<byte>
  {
    if pings == [] then []
    else Pongs(pings[..|pings| - 1], masks) + EncodeFrame(OpPong, pings[|pings| - 1], masks(|pings| - 1))
  }

  lemma PongsAppend(pings: seq<seq<byte>>, p: seq<byte>, masks: nat -> Mask)
    ensures Pongs(pings + [p], masks) == Pongs(pings, masks) + EncodeFrame(OpPong, p, masks(|pings|))
  {
    assert (pings + [p])[..|pings|] == pings;
  }

  lemma Associate(a: seq<byte>, b: seq<byte>, c: seq<byte>)
    ensures (a + b) + c == a + (b + c)
  {
  }

  /** The unmasking loop of readFrame: each payload byte XORed in place
      with key byte i mod 4. */
  method Unmask(payload: array<byte>, key: Mask)
    modifies payload
    ensures payload[..] == MaskBytes(old(payload[..]), key)
  {
    ghost var raw := payload[..];
    for i := 0 to payload.Length
      invariant payload[..i] == MaskBytes(raw[..i], key)
      invariant payload[i..] == raw[i..]
    {
      payload[i] := Xor(payload[i], key[i % 4]);
      assert raw[..i + 1][..i] == raw[..i];
    }
    assert raw[..payload.Length] == raw;
  }

  /** The masked copy writeFrame builds before it writes the payload. */
  method MaskCopy(payload: seq<byte>, mask: Mask) returns (masked: array<byte>)
    ensures fresh(masked)
    ensures masked[..] == MaskBytes(payload, mask)
  {
    var n := |payload|;
    masked := new byte[n];
    for i := 0 to n
      invariant masked[..i] == MaskBytes(payload[..i], mask)
    {
      masked[i] := Xor(payload[i], mask[i % 4]);
      assert payload[..i + 1][..i] == payload[..i];
    }
    assert payload[..n] == payload;
    assert masked[..] == masked[..n];
  }

  class WsConn {
    /** Every byte the server sends on this connection, in order. */
    const incoming: seq<byte>
    /** How many of them the reader has consumed. */
    var pos: nat
    /** Every byte the client has written. */
    var sent: seq<byte>
    var open: bool

    ghost predicate Valid()
      reads this
    {
      pos <= |incoming|
    }

    function Remaining(): seq<byte>
      reads this
      requires Valid()
    {
      incoming[pos..]
    }

    constructor (incoming: seq<byte>)
      ensures Valid() && open
      ensures this.incoming == incoming && pos == 0 && sent == []
    {
      this.incoming := incoming;
      pos := 0;
      sent := [];
      open := true;
    }

    /** io.ReadFull into `buf`: fills it from the stream, or reports a short
        read after taking whatever was left. */
    method ReadFull(buf: array<byte>) returns (err: Option<ReadError>)
      requires Valid()
      modifies this`pos, buf
      ensures Valid()
      ensures buf.Length <= |old(Remaining())| ==>
        err.None? && buf[..] == old(Remaining())[..buf.Length] && pos == old(pos) + buf.Length
      ensures buf.Length > |old(Remaining())| ==>
        err == Some(ShortRead(old(Remaining()))) && pos == |incoming|
    {
      if buf.Length > |incoming| - pos {
        var rest := incoming[pos..];
        pos := |incoming|;
        return Some(ShortRead(rest));
      }
      var start := pos;
      for i := 0 to buf.Length
        invariant pos == start && Valid()
        invariant buf[..i] == incoming[start..start + i]
      {
        buf[i] := incoming[start + i];
      }
      assert buf[..] == buf[..buf.Length];
      pos := start + buf.Length;
      return None;
    }

    /** The first part of readFrame: the two base header bytes, then the
        16-bit or 64-bit extended length when the 7-bit field says 126 or 127.
        Yields the opcode, the mask bit and the declared length. */
    method ReadHeader() returns (r: Result<Header, ReadError>)
      requires Valid()
      modifies this`pos
      ensures Valid()
      ensures var p := ParseHeader(old(Remaining()));
        pos == old(pos) + p.used
        && r == (if p.Read? then Success(p.value) else Failure(p.error))
    {
      ghost var s := Remaining();
      var header := new byte[2];
      var err := ReadFull(header);
      if err.Some? {
        return Failure(err.value);
      }
      assert header[..] == s[..2];
      assert Remaining() == s[2..];
      var length := ReadLength(header[1]);
      if length.Failure? {
        return Failure(length.error);
      }
      assert s[2..2 + ExtSize(s[1])] == s[2..][..ExtSize(s[1])];
      return Success(Header(Low4(header[0]), HighBit(header[1]), length.value));
    }

    /** The rest of the header after its second byte `b1`: the 7-bit length,
        or the 16-bit or 64-bit big-endian length that follows. */
    method ReadLength(b1: byte) returns (r: Result<int, ReadError>)
      requires Valid()
      modifies this`pos
      ensures Valid()
      ensures var t := old(Remaining()); var e := ExtSize(b1);
        if |t| < e then r == Failure(ShortRead(t)) && pos == |incoming|
        else r == Success(DeclaredLength(b1, t[..e])) && pos == old(pos) + e
    {
      var length: int := Low7(b1);
      var extLen := ExtSize(b1);
      if extLen > 0 {
        var ext := new byte[extLen];
        var err := ReadFull(ext);
        if err.Some? {
          return Failure(err.value);
        }
        if extLen == 2 {
          length := FromBigEndian(ext[..]);
        } else {
          assert Pow256(8) == TwoTo64;
          length := ToInt64(FromBigEndian(ext[..]));
        }
      }
      return Success(length);
    }

    /** The rest of readFrame once the header is in: the masking key when
        the mask bit is set, the size test, the payload, and the unmasking. */
    method ReadBody(masked: bool, length: int) returns (r: Result<seq<byte>, ReadError>)
      requires Valid()
      modifies this`pos
      ensures Valid()
      ensures var p := ParseBody(old(Remaining()), masked, length);
        pos == old(pos) + p.used
        && r == (if p.Read? then Success(p.value) else Failure(p.error))
    {
      ghost var t := Remaining();
      var maskKey: Mask := [0, 0, 0, 0];
      if masked {
        var key := new byte[4];
        var err := ReadFull(key);
        if err.Some? {
          return Failure(err.value);
        }
        maskKey := key[..];
      }
      ghost var k := if masked then 4 else 0;
      assert Remaining() == t[k..];
      if length < 0 || length > MaxPayload {
        return Failure(PayloadTooLarge);
      }
      var payload := new byte[length];
      var err := ReadFull(payload);
      if err.Some? {
        return Failure(err.value);
      }
      assert payload[..] == t[k..k + length];
      if masked {
        Unmask(payload, maskKey);
      }
      return Success(payload[..]);
    }

    /** readFrame: one frame off the stream, as ParseFrame describes it. */
    method ReadFrame() returns (r: Result<Frame, ReadError>)
      requires Valid()
      modifies this`pos
      ensures Valid()
      ensures var p := ParseFrame(old(Remaining()));
        pos == old(pos) + p.used
        && r == (if p.Read? then Success(p.value) else Failure(p.error))
    {
      ghost var s := Remaining();
      var h := ReadHeader();
      if h.Failure? {
        return Failure(h.error);
      }
      var header := h.value;
      assert Remaining() == s[2 + ExtSize(s[1])..];
      var body := ReadBody(header.masked, header.length);
      if body.Failure? {
        return Failure(body.error);
      }
      return Success(Frame(header.opcode, body.value));
    }

    /** writeFrame: FIN and the opcode, the mask bit and the three-tier length,
        the key, then the payload XORed with the key. */
    method WriteFrame(opcode: byte, payload: seq<byte>, mask: Mask)
      modifies this`sent
      ensures sent == old(sent) + EncodeFrame(opcode, payload, mask)
    {
      var n := |payload|;
      var length: seq<byte>;
      if n < 126 {
        length := [SecondByte(true, n)];
      } else if n <= 65535 {
        length := [SecondByte(true, 126)] + BigEndian(n, 2);
      } else {
        length := [SecondByte(true, 127)] + BigEndian(n % TwoTo64, 8);
      }
      assert length == LengthField(true, n);
      var masked := MaskCopy(payload, mask);
      EncodeFrameParts(opcode, payload, mask);
      sent := sent + ([FinByte(opcode)] + length + mask + masked[..]);
    }

    /** ReadText: returns the first text payload; a close frame ends the
        stream; every ping is answered at once by a pong carrying the same
        payload (the k-th pong of this call masked with masks(k)); pongs and
        other opcodes are dropped. */
    /** readFrame as ReadText sees it: either the call ends here, or the
        frame is passed over (a ping contributing its payload). */
    method ReadStep() returns (f: Result<Frame, ReadError>)
      requires Valid()
      modifies this`pos
      ensures Valid() && old(pos) <= pos
      ensures var s := incoming[old(pos)..];
        if Stops(f) then ReadTextSpec(s) == TextRead(Outcome(f), [], pos - old(pos))
        else (f.Success? && old(pos) < pos
              && ReadTextSpec(s) == After(PingsOf(f.value), pos - old(pos), ReadTextSpec(incoming[pos..])))
    {
      ghost var s := incoming[pos..];
      ghost var before := pos;
      f := ReadFrame();
      assert incoming[pos..] == s[pos - before..];
      ReadTextOnFrame(s, f, pos - before, incoming[pos..]);
    }

    method ReadText(masks: nat -> Mask) returns (r: TextOutcome)
      requires Valid()
      modifies this`pos, this`sent
      ensures Valid()
      ensures var spec := ReadTextSpec(old(Remaining()));
        r == spec.outcome
        && pos == old(pos) + spec.used
        && sent == old(sent) + Pongs(spec.pings, masks)
    {
      ghost var whole := ReadTextSpec(incoming[pos..]);
      AfterNothing(whole);
      ghost var start := pos;
      ghost var sent0 := sent;
      ghost var pings: seq<seq<byte>> := [];
      var answered: nat := 0;
      while true
        invariant pos <= |incoming| && start <= pos
        invariant answered == |pings|
        invariant whole == After(pings, pos - start, ReadTextSpec(incoming[pos..]))
        invariant sent == sent0 + Pongs(pings, masks)
        decreases |incoming| - pos
      {
        ghost var before := pos;
        ghost var s := incoming[pos..];
        var f := ReadStep();
        if Stops(f) {
          AfterStop(pings, before - start, ReadTextSpec(s));
          return Outcome(f);
        }
        ghost var u := pos - before;
        AfterAfter(pings, before - start, PingsOf(f.value), u, ReadTextSpec(incoming[pos..]));
        if f.value.opcode == OpPing {
          ghost var done := Pongs(pings, masks);
          var mask := masks(answered);
          WriteFrame(OpPong, f.value.payload, mask);
          ghost var pong := EncodeFrame(OpPong, f.value.payload, mask);
          Associate(sent0, done, pong);
          PongsAppend(pings, f.value.payload, masks);
          answered := answered + 1;
        } else {
          assert pings + PingsOf(f.value) == pings;
        }
        pings := pings + PingsOf(f.value);
      }
    }

    /** Close: marks the connection closed; closing again changes nothing. */
    method Close()
      modifies this`open
      ensures !open
    {
      open := false;
    }
  }
}
