/** The opening handshake of dialWS in the task service: the host to dial,
    the upgrade request, and the checks on the server's reply (status line,
    header lines, Sec-WebSocket-Accept) before frames are read from the same
    stream. The TCP dial, TLS, url.Parse, crypto/rand and SHA-1/base64 are
    outside the model: the parsed URL, the key and wsAccept are parameters. */
module WsHandshake {
  import opened Wrappers
  import opened Text
  import opened WsFrame
  import opened WsConn

  /** Why dialWS gives up after the request has been written. */
  datatype HandshakeError =
    | StreamEnded                      // ReadString found no newline before the end
    | HandshakeFailed(status: string)  // "websocket handshake failed: <status>"
    | AcceptMismatch                   // "websocket accept key mismatch"

  /** The parts of the parsed endpoint URL that dialWS reads. */
  datatype Endpoint = Endpoint(scheme: string, host: string, requestURI: string)

  /** One header line split at its first colon, name lowered and trimmed. */
  datatype Field = Field(name: string, value: string)

  /** The header lines up to the blank line, each split at its first colon
      (nothing for a line without one), and the offset just past the blank
      line. */
  datatype Block = Block(fields: seq<Option<Field>>, end: nat)

  const Newline: byte := 10
  const AcceptHeader: string := "sec-websocket-accept"

  /** The address to dial: the URL host, with the scheme's default port when
      it names none. */
  function HostWithPort(scheme: string, host: string): (r: string)
    ensures Contains(r, ":")
    ensures Contains(host, ":") ==> r == host
    ensures !Contains(host, ":") ==> r == host + (if scheme == "wss" then ":443" else ":80")
  {
    if Contains(host, ":") then host
    else
      var digits := if scheme == "wss" then "443" else "80";
      ContainsInside(host, ":", digits);
      assert host + ":" + digits == host + ([':'] + digits);
      host + ([':'] + digits)
  }

  /** An empty request URI asks for "/". */
  function RequestPath(uri: string): (r: string)
    ensures r != ""
    ensures uri != "" ==> r == uri
  {
    if uri == "" then "/" else uri
  }

  /** The upgrade request dialWS writes. */
  function Request(path: string, hostHeader: string, key: string): (r: string)
    ensures HasPrefix(r, "GET " + path + " HTTP/1.1\r\n")
    ensures Contains(r, "\r\nSec-WebSocket-Key: " + key + "\r\n")
    ensures |r| >= 4 && r[|r| - 4..] == "\r\n\r\n"
  {
    var start := "GET " + path + " HTTP/1.1\r\n";
    var mid := "Host: " + hostHeader + "\r\nUpgrade: websocket\r\nConnection: Upgrade";
    var keyLine := "\r\nSec-WebSocket-Key: " + key + "\r\n";
    var tail := "Sec-WebSocket-Version: 13\r\n\r\n";
    var r := start + mid + keyLine + tail;
    assert r[..|start|] == start;
    assert r == (start + mid) + keyLine + tail;
    ContainsInside(start + mid, keyLine, tail);
    assert r[|r| - 4..] == tail[|tail| - 4..];
    r
  }

  /** The bytes of a reply line as text, one character per byte; TrimBytes
      reads such text as UTF-8, as Go's strings.TrimSpace does. */
  function AsText(b: seq<byte>): (r: string)
    ensures |r| == |b|
    ensures forall i :: 0 <= i < |b| ==> r[i] as int == b[i]
  {
    seq(|b|, i requires 0 <= i < |b| => b[i] as char)
  }

  /** An ASCII white space byte: tab, newline, vertical tab, form feed,
      carriage return or space. */
  predicate AsciiSpace(c: char) {
    c == ' ' || '\t' <= c <= '\r'
  }

  /** The UTF-8 encoding, one character per byte, of a white space rune
      beyond ASCII that unicode.IsSpace accepts: U+0085, U+00A0, U+1680,
      U+2000 to U+200A, U+2028, U+2029, U+202F, U+205F or U+3000. */
  predicate WideSpace(t: string) {
    (|t| == 2 && t[0] == '\U{00C2}' && (t[1] == '\U{0085}' || t[1] == '\U{00A0}'))
    || (|t| == 3 && t[0] == '\U{00E1}' && t[1] == '\U{009A}' && t[2] == '\U{0080}')
    || (|t| == 3 && t[0] == '\U{00E2}' && t[1] == '\U{0080}'
        && ('\U{0080}' <= t[2] <= '\U{008A}' || t[2] == '\U{00A8}' || t[2] == '\U{00A9}' || t[2] == '\U{00AF}'))
    || (|t| == 3 && t[0] == '\U{00E2}' && t[1] == '\U{0081}' && t[2] == '\U{009F}')
    || (|t| == 3 && t[0] == '\U{00E3}' && t[1] == '\U{0080}' && t[2] == '\U{0080}')
  }

  /** The length of the white space rune a byte string starts with (as
      utf8.DecodeRune reads it), 0 when it starts with none. A lone byte of
      0x80 or more decodes as RuneError, which is not white space. */
  function LeadSpace(s: string): (n: nat)
    ensures n <= 3 && n <= |s|
  {
    if |s| >= 1 && AsciiSpace(s[0]) then 1
    else if |s| >= 2 && WideSpace(s[..2]) then 2
    else if |s| >= 3 && WideSpace(s[..3]) then 3
    else 0
  }

  /** The length of the white space rune a byte string ends with (as
      utf8.DecodeLastRune reads it), 0 when it ends with none. */
  function TrailSpace(s: string): (n: nat)
    ensures n <= 3 && n <= |s|
  {
    if |s| >= 1 && AsciiSpace(s[|s| - 1]) then 1
    else if |s| >= 2 && WideSpace(s[|s| - 2..]) then 2
    else if |s| >= 3 && WideSpace(s[|s| - 3..]) then 3
    else 0
  }

  /** strings.TrimLeftFunc(s, unicode.IsSpace) on a byte string. */
  function TrimLeftBytes(s: string): (r: string)
    ensures |r| <= |s| && r == s[|s| - |r|..]
    ensures LeadSpace(r) == 0
    decreases |s|
  {
    var n := LeadSpace(s);
    if n == 0 then s
    else
      var r := TrimLeftBytes(s[n..]);
      TailOfTail(s, n, |s| - n - |r|);
      r
  }

  /** strings.TrimRightFunc(s, unicode.IsSpace) on a byte string. */
  function TrimRightBytes(s: string): (r: string)
    ensures |r| <= |s| && r == s[..|r|]
    ensures TrailSpace(r) == 0
    decreases |s|
  {
    var n := TrailSpace(s);
    if n == 0 then s
    else
      var r := TrimRightBytes(s[..|s| - n]);
      HeadOfHead(s, |s| - n, |r|);
      r
  }

  /** strings.TrimSpace on a byte string: neither end is left with an ASCII
      white space byte or the UTF-8 encoding of another white space rune. */
  function TrimBytes(s: string): (r: string)
    ensures |r| <= |s|
    ensures LeadSpace(r) == 0 && TrailSpace(r) == 0
    ensures LeadSpace(s) == 0 && TrailSpace(s) == 0 ==> r == s
  {
    TrimRightLead(TrimLeftBytes(s));
    TrimRightBytes(TrimLeftBytes(s))
  }

  lemma TailOfTail(s: string, n: nat, k: nat)
    requires n + k <= |s|
    ensures s[n..][k..] == s[n + k..]
  {
  }

  lemma HeadOfHead(s: string, n: nat, k: nat)
    requires k <= n <= |s|
    ensures s[..n][..k] == s[..k]
  {
  }

  /** Cutting white space off the end keeps a start without any. */
  lemma TrimRightLead(s: string)
    requires LeadSpace(s) == 0
    ensures LeadSpace(TrimRightBytes(s)) == 0
  {
    var r := TrimRightBytes(s);
    if |r| >= 1 { assert r[0] == s[0]; }
    if |r| >= 2 { assert r[..2] == s[..2]; }
    if |r| >= 3 { assert r[..3] == s[..3]; }
  }

  /** All characters below 0x80: a byte string of ASCII only. */
  predicate IsAscii(s: string) {
    forall i :: 0 <= i < |s| ==> s[i] < '\U{0080}'
  }

  /** Below 0x80 the two white space tests agree. */
  lemma AsciiSpaceAgrees(c: char)
    requires c < '\U{0080}'
    ensures IsSpace(c) <==> AsciiSpace(c)
  {
  }

  /** An ASCII byte starts no multi-byte rune. */
  lemma LeadAscii(s: string)
    requires s != [] && s[0] < '\U{0080}'
    ensures LeadSpace(s) == (if AsciiSpace(s[0]) then 1 else 0)
  {
    if |s| >= 2 {
      assert !WideSpace(s[..2]) by { assert s[..2][0] == s[0]; }
    }
    if |s| >= 3 {
      assert !WideSpace(s[..3]) by { assert s[..3][0] == s[0]; }
    }
  }

  /** A multi-byte encoding ends with a byte of 0x80 or more. */
  lemma NotWideEnding(t: string)
    requires t != [] && t[|t| - 1] < '\U{0080}'
    ensures !WideSpace(t)
  {
  }

  /** An ASCII byte ends no multi-byte rune. */
  lemma TrailAscii(s: string)
    requires s != [] && s[|s| - 1] < '\U{0080}'
    ensures TrailSpace(s) == (if AsciiSpace(s[|s| - 1]) then 1 else 0)
  {
    if !AsciiSpace(s[|s| - 1]) && |s| >= 2 {
      NotWideEnding(s[|s| - 2..]);
      if |s| >= 3 {
        NotWideEnding(s[|s| - 3..]);
      }
    }
  }

  lemma {:induction false} TrimLeftAscii(s: string)
    requires IsAscii(s)
    ensures TrimLeftBytes(s) == TrimLeftSpace(s)
    decreases |s|
  {
    if s != [] {
      LeadAscii(s);
      AsciiSpaceAgrees(s[0]);
      if IsSpace(s[0]) {
        assert IsAscii(s[1..]) by {
          assert forall i :: 0 <= i < |s| - 1 ==> s[1..][i] == s[i + 1];
        }
        TrimLeftAscii(s[1..]);
      }
    }
  }

  lemma {:induction false} TrimRightAscii(s: string)
    requires IsAscii(s)
    ensures TrimRightBytes(s) == TrimRightSpace(s)
    decreases |s|
  {
    if s != [] {
      TrailAscii(s);
      AsciiSpaceAgrees(s[|s| - 1]);
      if IsSpace(s[|s| - 1]) {
        assert IsAscii(s[..|s| - 1]) by {
          assert forall i :: 0 <= i < |s| - 1 ==> s[..|s| - 1][i] == s[i];
        }
        TrimRightAscii(s[..|s| - 1]);
      }
    }
  }

  /** On ASCII text the byte-level trim is the ordinary white space trim. */
  lemma TrimBytesAscii(s: string)
    requires IsAscii(s)
    ensures TrimBytes(s) == TrimSpace(s)
  {
    TrimLeftAscii(s);
    var l := TrimLeftSpace(s);
    assert IsAscii(l) by {
      assert forall i :: 0 <= i < |l| ==> l[i] == s[|s| - |l| + i];
    }
    TrimRightAscii(l);
  }

  /** bufio.Reader.ReadString('\n') from `pos`: the offset just past the next
      newline, or nothing when the stream ends first. */
  function LineEnd(s: seq<byte>, pos: nat): (r: Option<nat>)
    requires pos <= |s|
    ensures r.None? <==> Newline !in s[pos..]
    ensures r.Some? ==> pos < r.value <= |s| && s[r.value - 1] == Newline
                        && Newline !in s[pos..r.value - 1]
    decreases |s| - pos
  {
    if pos == |s| then None
    else if s[pos] == Newline then Some(pos + 1)
    else
      var r := LineEnd(s, pos + 1);
      assert s[pos..] == [s[pos]] + s[pos + 1..];
      assert r.Some? ==> s[pos..r.value - 1] == [s[pos]] + s[pos + 1..r.value - 1];
      r
  }

  /** strings.SplitN(line, ":", 2) when it yields two parts, turned into the
      map entry dialWS stores. */
  function FieldOf(line: string): (r: Option<Field>)
    ensures r.None? <==> ':' !in line
  {
    match IndexOf(line, ':')
    case None => None
    case Some(i) => Some(Field(ToLower(TrimBytes(line[..i])), TrimBytes(line[i + 1..])))
  }

  /** The parsed line stores a value under `name`. */
  predicate Names(f: Option<Field>, name: string) {
    f.Some? && f.value.name == name
  }

  /** The header map after one more line; a line without a colon adds nothing. */
  function AddField(m: map<string, string>, f: Option<Field>): map<string, string> {
    match f
    case None => m
    case Some(f) => m[f.name := f.value]
  }

  /** The header map after the given parsed lines, in order. */
  function HeaderFold(m: map<string, string>, fields: seq<Option<Field>>): map<string, string>
    decreases |fields|
  {
    if fields == [] then m
    else AddField(HeaderFold(m, fields[..|fields| - 1]), fields[|fields| - 1])
  }

  lemma HeaderFoldAppend(m: map<string, string>, fields: seq<Option<Field>>, f: Option<Field>)
    ensures HeaderFold(m, fields + [f]) == AddField(HeaderFold(m, fields), f)
  {
    assert (fields + [f])[..|fields|] == fields;
  }

  /** A name is in the header map exactly when some line stores it, and its
      value is the one the last such line gives: later duplicates win, lines
      without a colon are ignored. */
  lemma {:induction false} HeaderFoldLastWins(m: map<string, string>, fields: seq<Option<Field>>, name: string)
    ensures name in HeaderFold(m, fields) <==>
      name in m || exists i :: 0 <= i < |fields| && Names(fields[i], name)
    ensures forall i :: 0 <= i < |fields| && Names(fields[i], name) &&
                        (forall j :: i < j < |fields| ==> !Names(fields[j], name)) ==>
                          HeaderFold(m, fields)[name] == fields[i].value.value
    ensures (forall i :: 0 <= i < |fields| ==> !Names(fields[i], name)) && name in m
      ==> HeaderFold(m, fields)[name] == m[name]
    decreases |fields|
  {
    if fields != [] {
      var n := |fields| - 1;
      var init := fields[..n];
      HeaderFoldLastWins(m, init, name);
      assert forall i :: 0 <= i < n ==> init[i] == fields[i];
    }
  }

  /** `r` preceded by the parsed lines `fs`. */
  function Prepend(fs: seq<Option<Field>>, r: Result<Block, HandshakeError>): Result<Block, HandshakeError> {
    match r
    case Failure(e) => Failure(e)
    case Success(b) => Success(Block(fs + b.fields, b.end))
  }

  lemma PrependNothing(r: Result<Block, HandshakeError>)
    ensures Prepend([], r) == r
  {
    if r.Success? {
      assert [] + r.value.fields == r.value.fields;
    }
  }

  lemma PrependPrepend(a: seq<Option<Field>>, b: seq<Option<Field>>, r: Result<Block, HandshakeError>)
    ensures Prepend(a, Prepend(b, r)) == Prepend(a + b, r)
  {
    if r.Success? {
      assert a + (b + r.value.fields) == (a + b) + r.value.fields;
    }
  }

  /** A reply line with its surrounding white space removed. */
  function LineText(s: seq<byte>, pos: nat, end: nat): string
    requires pos <= end <= |s|
  {
    TrimBytes(AsText(s[pos..end]))
  }

  /** A lone 0xA0 byte is kept by the trim: Go decodes it as RuneError. */
  lemma LoneByteKept()
    ensures TrimBytes("\U{00A0}\r\n") == "\U{00A0}"
  {
    var t := "\U{00A0}\r\n";
    assert LeadSpace(t) == 0 by {
      assert t[..2] == "\U{00A0}\r" && t[..3] == t;
    }
    assert TrailSpace(t) == 1 && t[..2] == "\U{00A0}\r";
    assert TrailSpace("\U{00A0}\r") == 1 && "\U{00A0}\r"[..1] == "\U{00A0}";
    assert TrailSpace("\U{00A0}") == 0;
  }

  /** The no-break space encoded in UTF-8 (C2 A0) is trimmed. */
  lemma EncodedSpaceTrimmed()
    ensures TrimBytes("\U{00C2}\U{00A0}\r\n") == ""
  {
    var t := "\U{00C2}\U{00A0}\r\n";
    assert LeadSpace(t) == 2 && t[2..] == "\r\n" by {
      assert t[..2] == "\U{00C2}\U{00A0}";
    }
    assert LeadSpace("\r\n") == 1 && "\r\n"[1..] == "\n";
    assert LeadSpace("\n") == 1 && "\n"[1..] == "";
  }

  /** A reply line holding a lone 0xA0 byte is not blank, while one holding
      the UTF-8 no-break space is. */
  lemma ReplyLineTrim()
    ensures LineText([0xA0, 13, 10], 0, 3) == "\U{00A0}"
    ensures LineText([0xC2, 0xA0, 13, 10], 0, 4) == ""
  {
    var lone: seq<byte> := [0xA0, 13, 10];
    var nbsp: seq<byte> := [0xC2, 0xA0, 13, 10];
    assert AsText(lone[0..3]) == "\U{00A0}\r\n";
    assert AsText(nbsp[0..4]) == "\U{00C2}\U{00A0}\r\n";
    LoneByteKept();
    EncodedSpaceTrimmed();
  }

  /** The header loop of dialWS from `pos`: the lines read before the first
      blank one, each split at its colon, or StreamEnded when the reply stops
      before the blank line. */
  function HeaderLines(s: seq<byte>, pos: nat): (r: Result<Block, HandshakeError>)
    requires pos <= |s|
    ensures r.Success? ==> pos < r.value.end <= |s|
    ensures r.Failure? ==> r.error == StreamEnded
    decreases |s| - pos
  {
    match LineEnd(s, pos)
    case None => Failure(StreamEnded)
    case Some(e) =>
      var line := LineText(s, pos, e);
      if line == "" then Success(Block([], e))
      else Prepend([FieldOf(line)], HeaderLines(s, e))
  }

  /** The handshake check on the whole reply: where the frames start, or why
      dialWS fails. `accept` stands for wsAccept. */
  function Handshake(response: seq<byte>, key: string, accept: string -> string): (r: Result<nat, HandshakeError>)
    ensures r.Success? ==> r.value <= |response|
  {
    match LineEnd(response, 0)
    case None => Failure(StreamEnded)
    case Some(e) => StatusThen(AsText(response[..e]), HeaderLines(response, e), key, accept)
  }

  /** The checks after the status line has been read. */
  function StatusThen(status: string, headers: Result<Block, HandshakeError>, key: string,
                      accept: string -> string): Result<nat, HandshakeError>
  {
    if !Contains(status, "101") then Failure(HandshakeFailed(TrimBytes(status)))
    else AcceptThen(headers, key, accept)
  }

  /** The header map and the offset of the first frame byte. */
  datatype Reply = Reply(headers: map<string, string>, end: nat)

  /** The header loop's outcome as dialWS keeps it: the map of the lines. */
  function Collect(h: Result<Block, HandshakeError>): Result<Reply, HandshakeError> {
    match h
    case Failure(err) => Failure(err)
    case Success(b) => Success(Reply(HeaderFold(map[], b.fields), b.end))
  }

  /** The accept comparison on the collected headers. */
  function AcceptOn(c: Result<Reply, HandshakeError>, key: string, accept: string -> string): Result<nat, HandshakeError> {
    match c
    case Failure(err) => Failure(err)
    case Success(reply) =>
      var got := if AcceptHeader in reply.headers then reply.headers[AcceptHeader] else "";
      if got != "" && got != accept(key) then Failure(AcceptMismatch)
      else Success(reply.end)
  }

  /** The checks after the header lines have been read. */
  function AcceptThen(headers: Result<Block, HandshakeError>, key: string,
                      accept: string -> string): Result<nat, HandshakeError>
  {
    AcceptOn(Collect(headers), key, accept)
  }

  /** The status line decides first: without "101" the handshake fails with
      that line, trimmed, whatever follows, and that is the only way to get
      HandshakeFailed. */
  lemma StatusChecked(status: string, headers: Result<Block, HandshakeError>, key: string,
                      accept: string -> string)
    ensures !Contains(status, "101") ==>
      StatusThen(status, headers, key, accept) == Failure(HandshakeFailed(TrimBytes(status)))
    ensures Contains(status, "101") ==>
      StatusThen(status, headers, key, accept) == AcceptThen(headers, key, accept)
  {
  }

  /** Once the header lines are read, the accept check fails exactly when the
      last line naming sec-websocket-accept carries a non-empty value other
      than wsAccept(key); a reply with no such line is accepted. */
  lemma {:induction false} AcceptChecked(b: Block, key: string, accept: string -> string)
    ensures (forall i :: 0 <= i < |b.fields| ==> !Names(b.fields[i], AcceptHeader))
      ==> AcceptThen(Success(b), key, accept) == Success(b.end)
    ensures forall i :: 0 <= i < |b.fields| && Names(b.fields[i], AcceptHeader) &&
                        (forall j :: i < j < |b.fields| ==> !Names(b.fields[j], AcceptHeader)) ==>
                          (AcceptThen(Success(b), key, accept) == Failure(AcceptMismatch) <==>
                           b.fields[i].value.value != "" && b.fields[i].value.value != accept(key))
    ensures AcceptThen(Success(b), key, accept) == Failure(AcceptMismatch)
      || AcceptThen(Success(b), key, accept) == Success(b.end)
  {
    HeaderFoldLastWins(map[], b.fields, AcceptHeader);
  }

  /** A line naming `name` is followed by a last one. */
  lemma {:induction false} LastNaming(fields: seq<Option<Field>>, name: string, k: nat)
    requires k < |fields| && Names(fields[k], name)
    ensures exists i :: k <= i < |fields| && Names(fields[i], name) &&
                        forall j :: i < j < |fields| ==> !Names(fields[j], name)
    decreases |fields| - k
  {
    if exists j :: k < j < |fields| && Names(fields[j], name) {
      var j :| k < j < |fields| && Names(fields[j], name);
      LastNaming(fields, name, j);
    }
  }

  /** The accept comparison passes when no line names sec-websocket-accept
      or the last one is empty or equals wsAccept(key). */
  lemma AcceptPasses(b: Block, key: string, accept: string -> string)
    requires forall i :: 0 <= i < |b.fields| && Names(b.fields[i], AcceptHeader) &&
                         (forall j :: i < j < |b.fields| ==> !Names(b.fields[j], AcceptHeader)) ==>
                           b.fields[i].value.value == "" || b.fields[i].value.value == accept(key)
    ensures AcceptThen(Success(b), key, accept) == Success(b.end)
  {
    AcceptChecked(b, key, accept);
    if exists k :: 0 <= k < |b.fields| && Names(b.fields[k], AcceptHeader) {
      var k :| 0 <= k < |b.fields| && Names(b.fields[k], AcceptHeader);
      LastNaming(b.fields, AcceptHeader, k);
    }
  }

  /** The whole check succeeds for a status line containing "101", header
      lines ended by a blank one, and no accept line or a last one that is
      empty or equals wsAccept(key); the frames then start just past that
      blank line. */
  lemma HandshakeAccepted(response: seq<byte>, key: string, accept: string -> string, e: nat, b: Block)
    requires LineEnd(response, 0) == Some(e)
    requires Contains(AsText(response[..e]), "101")
    requires HeaderLines(response, e) == Success(b)
    requires forall i :: 0 <= i < |b.fields| && Names(b.fields[i], AcceptHeader) &&
                         (forall j :: i < j < |b.fields| ==> !Names(b.fields[j], AcceptHeader)) ==>
                           b.fields[i].value.value == "" || b.fields[i].value.value == accept(key)
    ensures Handshake(response, key, accept) == Success(b.end)
    ensures e < b.end <= |response|
  {
    AcceptPasses(b, key, accept);
    assert Handshake(response, key, accept) == StatusThen(AsText(response[..e]), Success(b), key, accept);
  }

  /** strings.SplitN(line, ":", 2) and the name and value dialWS stores when
      there are two parts. */
  method SplitField(line: string) returns (f: Option<Field>)
    ensures f == FieldOf(line)
  {
    var colon := IndexOf(line, ':');
    if colon.None? {
      return None;
    }
    var name := ToLower(TrimBytes(line[..colon.value]));
    var value := TrimBytes(line[colon.value + 1..]);
    return Some(Field(name, value));
  }

  /** The header loop of dialWS: reads lines from `start` until a blank one,
      storing each "name: value" line in the map. */
  method ReadHeaders(response: seq<byte>, start: nat) returns (r: Result<Reply, HandshakeError>)
    requires start <= |response|
    ensures r == Collect(HeaderLines(response, start))
  {
    var headers: map<string, string> := map[];
    var pos := start;
    ghost var fields: seq<Option<Field>> := [];
    PrependNothing(HeaderLines(response, pos));
    while true
      invariant start <= pos <= |response|
      invariant HeaderLines(response, start) == Prepend(fields, HeaderLines(response, pos))
      invariant headers == HeaderFold(map[], fields)
      decreases |response| - pos
    {
      var end := LineEnd(response, pos);
      if end.None? {
        return Failure(StreamEnded);
      }
      var line := LineText(response, pos, end.value);
      if line == "" {
        assert HeaderLines(response, pos) == Success(Block([], end.value));
        assert fields + [] == fields;
        return Success(Reply(headers, end.value));
      }
      var field := SplitField(line);
      if field.Some? {
        headers := headers[field.value.name := field.value.value];
      }
      HeaderFoldAppend(map[], fields, field);
      PrependPrepend(fields, [field], HeaderLines(response, end.value));
      fields := fields + [field];
      pos := end.value;
    }
  }

  /** The first part of dialWS: the address to dial (the URL host, with the
      scheme's default port when it names none) and the request written to
      it. */
  method Address(e: Endpoint, key: string) returns (dialHost: string, request: string)
    ensures dialHost == HostWithPort(e.scheme, e.host)
    ensures request == Request(RequestPath(e.requestURI), if e.host == "" then dialHost else e.host, key)
  {
    dialHost := e.host;
    if !Contains(dialHost, ":") {
      if e.scheme == "wss" {
        dialHost := dialHost + ":443";
      } else {
        dialHost := dialHost + ":80";
      }
    }
    var path := e.requestURI;
    if path == "" {
      path := "/";
    }
    var hostHeader := e.host;
    if hostHeader == "" {
      hostHeader := dialHost;
    }
    request := Request(path, hostHeader, key);
  }

  /** The reply checks of dialWS: the status line, the header loop and the
      accept comparison, giving the offset where frames start. */
  method CheckReply(response: seq<byte>, key: string, accept: string -> string) returns (r: Result<nat, HandshakeError>)
    ensures r == Handshake(response, key, accept)
  {
    var statusEnd := LineEnd(response, 0);
    if statusEnd.None? {
      return Failure(StreamEnded);
    }
    var status := AsText(response[..statusEnd.value]);
    if !Contains(status, "101") {
      return Failure(HandshakeFailed(TrimBytes(status)));
    }
    r := CheckHeaders(response, statusEnd.value, key, accept);
  }

  /** The header loop and the accept comparison after a good status line. */
  method CheckHeaders(response: seq<byte>, start: nat, key: string, accept: string -> string)
    returns (r: Result<nat, HandshakeError>)
    requires start <= |response|
    ensures r == AcceptThen(HeaderLines(response, start), key, accept)
  {
    var reply := ReadHeaders(response, start);
    assert AcceptThen(HeaderLines(response, start), key, accept) == AcceptOn(reply, key, accept);
    if reply.Failure? {
      return Failure(reply.error);
    }
    var headers := reply.value.headers;
    var got := if AcceptHeader in headers then headers[AcceptHeader] else "";
    if got != "" && got != accept(key) {
      return Failure(AcceptMismatch);
    }
    return Success(reply.value.end);
  }

  /** dialWS after url.Parse: the address to dial, the request it writes, and
      the connection over the reply (positioned after the blank line that
      ends the headers), or the handshake error. */
  method DialWS(e: Endpoint, key: string, accept: string -> string, response: seq<byte>)
    returns (dialHost: string, request: string, r: Result<WsConn, HandshakeError>)
    ensures dialHost == HostWithPort(e.scheme, e.host)
    ensures request == Request(RequestPath(e.requestURI), if e.host == "" then dialHost else e.host, key)
    ensures var spec := Handshake(response, key, accept);
      (r.Success? <==> spec.Success?)
      && (r.Failure? ==> r.error == spec.error)
      && (r.Success? ==> (fresh(r.value) && r.value.Valid() && r.value.incoming == response
            && r.value.pos == spec.value && r.value.sent == [] && r.value.open))
  {
    dialHost, request := Address(e, key);
    var end := CheckReply(response, key, accept);
    if end.Failure? {
      return dialHost, request, Failure(end.error);
    }
    var conn := new WsConn(response);
    conn.pos := end.value;
    r := Success(conn);
  }
}
