/** Reading one HTTP response off a connection (src/http.rs): the bytes arrive in
    arbitrary pieces, and the response does not depend on where they are cut. */
module HttpResponse {
  import opened Basics
  import opened Text
  import opened Chunked

  // ---- The head -------------------------------------------------------------

  datatype Header = Header(name: string, value: string)
  datatype Head = Head(status: nat, headers: seq<Header>)

  function FirstCrlf(s: string): (k: nat)
    ensures k <= |s| && (k < |s| ==> k + 2 <= |s|)
  {
    if s == "" then 0
    else if "\r\n" <= s then 0
    else if FirstCrlf(s[1..]) == |s| - 1 then |s|
    else 1 + FirstCrlf(s[1..])
  }

  /** `split("\r\n")`: always at least one piece. */
  function SplitLines(s: string): (lines: seq<string>)
    ensures lines != []
    decreases |s|
  {
    var k := FirstCrlf(s);
    if k == |s| then [s] else [s[..k]] + SplitLines(s[k + 2..])
  }

  function WordEnd(s: string): (k: nat)
    ensures k <= |s| && (s != "" && !IsWhitespace(s[0]) ==> k > 0)
  {
    if s == "" || IsWhitespace(s[0]) then 0 else 1 + WordEnd(s[1..])
  }

  /** `split_whitespace`. */
  function Words(s: string): seq<string>
    decreases |s|
  {
    if s == "" then []
    else if IsWhitespace(s[0]) then Words(s[1..])
    else [s[..WordEnd(s)]] + Words(s[WordEnd(s)..])
  }

  function StatusOf(line: string): Option<nat> {
    if |Words(line)| < 2 then None else
    match ParseU64(Words(line)[1])
    case None => None
    case Some(n) => if n < 65_536 then Some(n) else None
  }

  function ColonIndex(s: string): (k: nat)
    ensures k <= |s|
  {
    if s == "" || s[0] == ':' then 0 else 1 + ColonIndex(s[1..])
  }

  /** Lines without a colon are skipped. */
  function HeadersOf(lines: seq<string>): seq<Header> {
    if lines == [] then []
    else
      var line, k := lines[0], ColonIndex(lines[0]);
      (if k < |line| then [Header(Trim(line[..k]), Trim(line[k + 1..]))] else []) + HeadersOf(lines[1..])
  }

  function ParseHead(text: string): Option<Head> {
    var lines := SplitLines(text);
    match StatusOf(lines[0])
    case None => None
    case Some(status) => Some(Head(status, HeadersOf(lines[1..])))
  }

  // ---- Framing --------------------------------------------------------------

  function AsciiLower(s: string): string {
    seq(|s|, i requires 0 <= i < |s| => if 'A' <= s[i] <= 'Z' then (s[i] as int + 32) as char else s[i])
  }

  predicate Contains(s: string, part: string) {
    part <= s || (s != "" && Contains(s[1..], part))
  }

  datatype Framing = ByChunks | ByLength(n: nat) | ToEnd

  predicate SaysChunked(h: Header) {
    AsciiLower(h.name) == "transfer-encoding" && Contains(AsciiLower(h.value), "chunked")
  }

  /** Only the first content-length counts; one that does not parse counts as none. */
  function LengthOf(headers: seq<Header>): Option<u64> {
    if headers == [] then None
    else if AsciiLower(headers[0].name) == "content-length" then ParseU64(headers[0].value)
    else LengthOf(headers[1..])
  }

  function FramingOf(headers: seq<Header>): Framing {
    if exists h <- headers :: SaysChunked(h) then ByChunks
    else match LengthOf(headers) case Some(n) => ByLength(n) case None => ToEnd
  }

  // ---- The response a byte stream denotes -----------------------------------

  datatype Received =
    | Response(status: nat, headers: seq<Header>, body: bytes)
    | ClosedBeforeHeaders
    | BadStatusLine(line: string)
    | ClosedMidChunk
    | Panicked

  const HEAD_END: bytes := [13, 10, 13, 10]

  function Truncated(b: bytes, n: nat): bytes {
    if |b| <= n then b else b[..n]
  }

  function BodyOf(h: Head, rest: bytes): Received {
    match FramingOf(h.headers)
    case ByLength(n) => Response(h.status, h.headers, Truncated(rest, n))
    case ToEnd => Response(h.status, h.headers, rest)
    case ByChunks =>
      match Decode(rest)
      case Body(b) => Response(h.status, h.headers, b)
      case Panics => Panicked
      case Refused(_) => ClosedMidChunk
  }

  /** `lossy` stands for lossy UTF-8 decoding of the head. */
  function ResponseOf(lossy: bytes -> string, stream: bytes): Received {
    match FindSubslice(stream, HEAD_END)
    case None => ClosedBeforeHeaders
    case Some(i) =>
      match ParseHead(lossy(stream[..i + 4]))
      case None => BadStatusLine(SplitLines(lossy(stream[..i + 4]))[0])
      case Some(h) => BodyOf(h, stream[i + 4..])
  }

  // ---- The reader -----------------------------------------------------------

  function Joined(pieces: seq<bytes>): bytes {
    if pieces == [] then [] else pieces[0] + Joined(pieces[1..])
  }

  /** A connection that will deliver these pieces, none of them empty. */
  class Connection {
    var pieces: seq<bytes>

    predicate Valid()
      reads this
    {
      forall p <- pieces :: p != []
    }

    /** Nothing is read only at the end of the stream. */
    method Read() returns (piece: bytes)
      requires Valid()
      modifies this
      ensures Valid()
      ensures Joined(old(pieces)) == piece + Joined(pieces)
      ensures piece == [] ==> pieces == []
      ensures piece != [] ==> |pieces| < |old(pieces)|
    {
      if pieces == [] {
        assert Joined(pieces) == [] + Joined(pieces);
        return [];
      }
      assert pieces[0] in pieces;
      assert forall p <- pieces[1..] :: p in pieces;
      piece := pieces[0];
      pieces := pieces[1..];
    }
  }

  /** The reads of `request`; its result is that of the whole stream, wherever
      the pieces were cut. */
  method Receive(conn: Connection, lossy: bytes -> string) returns (r: Received)
    requires conn.Valid()
    modifies conn
    ensures r == ResponseOf(lossy, Joined(old(conn.pieces)))
  {
    hide FindSubslice, ParseHead, BodyOf, SplitLines;
    ghost var stream := Joined(conn.pieces);
    var raw: bytes := [];
    var headerEnd := 0;
    NothingInNothing();
    while true
      invariant conn.Valid()
      invariant stream == raw + Joined(conn.pieces) && FindSubslice(raw, HEAD_END) == None
      decreases |conn.pieces|
    {
      var piece := conn.Read();
      if piece == [] {
        assert raw + [] == raw;
        return ClosedBeforeHeaders;
      }
      Assoc(raw, piece, Joined(conn.pieces));
      raw := raw + piece;
      FoundStays(raw, Joined(conn.pieces), HEAD_END);
      var found := FindSubslice(raw, HEAD_END);
      if found.Some? {
        headerEnd := found.value + 4;
        break;
      }
    }
    var h := ParseHead(lossy(raw[..headerEnd]));
    assert stream[..headerEnd] == raw[..headerEnd];
    if h.None? { return BadStatusLine(SplitLines(lossy(raw[..headerEnd]))[0]); }
    assert stream[headerEnd..] == raw[headerEnd..] + Joined(conn.pieces);
    r := ReceiveBody(conn, h.value, raw[headerEnd..]);
  }

  lemma NothingInNothing()
    ensures FindSubslice([], HEAD_END) == None
  {}

  method ReceiveBody(conn: Connection, h: Head, start: bytes) returns (r: Received)
    requires conn.Valid()
    modifies conn
    ensures r == BodyOf(h, start + Joined(old(conn.pieces)))
  {
    hide FramingOf, Decode;
    ghost var rest := start + Joined(conn.pieces);
    var body := start;
    match FramingOf(h.headers) {
      case ByChunks =>
        while true
          invariant conn.Valid() && rest == body + Joined(conn.pieces)
          decreases |conn.pieces|
        {
          var decoded := DecodeChunkedBody(body);
          DecodeIsStable(body, Joined(conn.pieces));
          match decoded {
            case Body(b) => return Response(h.status, h.headers, b);
            case Panics => return Panicked;
            case Refused(_) =>
          }
          var piece := conn.Read();
          if piece == [] {
            assert body + [] == body;
            return ClosedMidChunk;
          }
          Assoc(body, piece, Joined(conn.pieces));
          body := body + piece;
        }
      case ByLength(n) =>
        while |body| < n
          invariant conn.Valid() && rest == body + Joined(conn.pieces)
          decreases |conn.pieces|
        {
          var piece := conn.Read();
          if piece == [] { break; }
          Assoc(body, piece, Joined(conn.pieces));
          body := body + piece;
        }
        assert Truncated(body, n) == Truncated(rest, n);
        return Response(h.status, h.headers, Truncated(body, n));
      case ToEnd =>
        while true
          invariant conn.Valid() && rest == body + Joined(conn.pieces)
          decreases |conn.pieces|
        {
          var piece := conn.Read();
          if piece == [] { break; }
          Assoc(body, piece, Joined(conn.pieces));
          body := body + piece;
        }
        return Response(h.status, h.headers, body);
    }
  }

  // ---- What does not matter -------------------------------------------------

  /** The response is complete before the stream is. */
  predicate CompleteEarly(h: Head, rest: bytes) {
    match FramingOf(h.headers)
    case ByChunks => !Incomplete(Decode(rest))
    case ByLength(n) => |rest| >= n
    case ToEnd => false
  }

  /** Bytes after a complete head and a complete body are never looked at; a body
      that runs to the end of the stream takes in every one of them. */
  lemma LaterBytes(lossy: bytes -> string, stream: bytes, more: bytes, h: Head)
    requires FindSubslice(stream, HEAD_END).Some?
    requires var end := FindSubslice(stream, HEAD_END).value + 4; ParseHead(lossy(stream[..end])) == Some(h)
    ensures var rest := stream[FindSubslice(stream, HEAD_END).value + 4..];
            && (CompleteEarly(h, rest) ==> ResponseOf(lossy, stream + more) == ResponseOf(lossy, stream))
            && (FramingOf(h.headers).ToEnd? ==>
                  ResponseOf(lossy, stream + more) == Response(h.status, h.headers, rest + more))
  {
    hide FindSubslice, ParseHead, FramingOf, DecodeAt, SaysChunked;
    FoundStays(stream, more, HEAD_END);
    var end := FindSubslice(stream, HEAD_END).value + 4;
    var rest := stream[end..];
    assert (stream + more)[..end] == stream[..end];
    assert (stream + more)[end..] == rest + more;
    if FramingOf(h.headers).ByChunks? && !Incomplete(Decode(rest)) { DecodeIsStable(rest, more); }
  }
}
