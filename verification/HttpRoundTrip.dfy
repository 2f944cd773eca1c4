/** A response as a server sends it, received: status, headers and body come back
    under each of the three framings (src/http.rs; RFC 9112). */
module HttpRoundTrip {
  import opened Basics
  import opened Text
  import opened Chunked
  import opened ChunkedEncoding
  import opened HttpResponse
  import opened HttpFraming
  import Hex
  import Utf8

  // ---- What a server sends --------------------------------------------------

  const LINE_END := "\r\n"

  /** A status line as it may be sent: any version, any white space. */
  datatype StatusLine = StatusLine(lead: string, version: string, gap: string, status: nat, tail: string)

  function StatusLineText(l: StatusLine): string {
    l.lead + (l.version + (l.gap + (Decimal(l.status) + l.tail)))
  }

  predicate IsStatusLine(l: StatusLine) {
    && AllWhite(l.lead) && l.version != "" && (forall c <- l.version :: !IsWhitespace(c))
    && l.gap != "" && AllWhite(l.gap) && (l.tail != "" ==> IsWhitespace(l.tail[0]))
    && NoReturn(l.lead) && NoReturn(l.gap) && NoReturn(l.tail)
  }

  /** A further line of the head: a header with white space wherever it may stand,
      or a line without a colon, which is passed over. */
  datatype SentLine =
    | SentHeader(header: Header, before: string, beforeColon: string, afterColon: string, after: string)
    | Ignored(text: string)

  function LineText(l: SentLine): string {
    match l
    case SentHeader(h, a, b, c, d) => a + (h.name + (b + (":" + (c + (h.value + d)))))
    case Ignored(text) => text
  }

  predicate NoReturn(s: string) {
    '\r' !in s
  }

  predicate IsSpace(s: string) {
    AllWhite(s) && NoReturn(s)
  }

  predicate IsSentLine(l: SentLine) {
    match l
    case SentHeader(h, a, b, c, d) =>
      && Trimmed(h.name) && Trimmed(h.value) && ':' !in h.name && NoReturn(h.name) && NoReturn(h.value)
      && IsSpace(a) && IsSpace(b) && IsSpace(c) && IsSpace(d)
    case Ignored(text) => text != "" && ':' !in text && NoReturn(text)
  }

  function LineTexts(lines: seq<SentLine>): seq<string> {
    if lines == [] then [] else [LineText(lines[0])] + LineTexts(lines[1..])
  }

  /** The headers among the lines, in order. */
  function SentHeaders(lines: seq<SentLine>): seq<Header> {
    if lines == [] then []
    else (match lines[0] case SentHeader(h, _, _, _, _) => [h] case Ignored(_) => []) + SentHeaders(lines[1..])
  }

  function HeadLines(status: StatusLine, lines: seq<SentLine>): seq<string> {
    [StatusLineText(status)] + LineTexts(lines)
  }

  /** Every line with its line ending, then an empty one. */
  function HeadText(lines: seq<string>): string {
    if lines == [] then LINE_END else lines[0] + (LINE_END + HeadText(lines[1..]))
  }

  // ---- Splitting the head ---------------------------------------------------

  lemma {:induction false} FirstCrlfAfter(line: string, more: string)
    requires '\r' !in line
    ensures FirstCrlf(line + (LINE_END + more)) == |line|
  {
    var s := line + (LINE_END + more);
    if line == "" {
      assert s == LINE_END + more;
    } else {
      assert line[0] in line && s[0] == line[0];
      assert s[1..] == line[1..] + (LINE_END + more);
      FirstCrlfAfter(line[1..], more);
    }
  }

  lemma SplitFirst(line: string, more: string)
    requires '\r' !in line
    ensures SplitLines(line + (LINE_END + more)) == [line] + SplitLines(more)
  {
    hide FirstCrlf;
    FirstCrlfAfter(line, more);
    var s := line + (LINE_END + more);
    assert s[..|line|] == line && s[|line| + 2..] == more;
  }

  lemma {:induction false} HeadSplits(lines: seq<string>)
    requires forall l <- lines :: '\r' !in l
    ensures SplitLines(HeadText(lines)) == lines + ["", ""]
  {
    hide SplitLines, HeadText;
    if lines == [] {
      SplitFirst("", "");
      HeadTextEmpty();
      SplitEmpty();
      assert "" + (LINE_END + "") == LINE_END;
      assert [""] + [""] == lines + ["", ""];
    } else {
      var line, more := lines[0], lines[1..];
      assert lines == [line] + more && line in lines;
      HeadTextCons(line, more);
      SplitFirst(line, HeadText(more));
      HeadSplits(more);
      Assoc([line], more, ["", ""]);
    }
  }

  lemma SplitEmpty()
    ensures SplitLines("") == [""]
  {}

  // ---- The status line ------------------------------------------------------

  lemma {:induction false} WordsAfterSpace(w: string, s: string)
    requires AllWhite(w)
    ensures Words(w + s) == Words(s)
  {
    hide IsWhitespace, WordEnd;
    if w == "" {
      assert w + s == s;
    } else {
      assert w[0] in w && (w + s)[1..] == w[1..] + s;
      WordsAfterSpace(w[1..], s);
    }
  }

  lemma {:induction false} WordEndsAtSpace(w: string, t: string)
    requires (forall c <- w :: !IsWhitespace(c)) && (t != "" ==> IsWhitespace(t[0]))
    ensures WordEnd(w + t) == |w|
  {
    hide IsWhitespace;
    if w == "" {
      assert w + t == t;
    } else {
      assert w[0] in w && (w + t)[1..] == w[1..] + t;
      WordEndsAtSpace(w[1..], t);
    }
  }

  lemma FirstWord(w: string, t: string)
    requires w != "" && (forall c <- w :: !IsWhitespace(c)) && (t != "" ==> IsWhitespace(t[0]))
    ensures Words(w + t) == [w] + Words(t)
  {
    hide IsWhitespace, WordEnd;
    WordEndsAtSpace(w, t);
    assert w[0] in w && (w + t)[0] == w[0];
    assert (w + t)[..|w|] == w && (w + t)[|w|..] == t;
  }

  lemma DigitsAreNoSpace(n: nat)
    ensures forall c <- Decimal(n) :: !IsWhitespace(c) && c != '\r'
  {
    hide Decimal;
    forall c | c in Decimal(n) ensures !IsWhitespace(c) && c != '\r' {
      var i :| 0 <= i < |Decimal(n)| && Decimal(n)[i] == c;
      assert IsDigit(c);
    }
  }

  /** The status is the second word, if it fits sixteen bits. */
  lemma StatusReads(l: StatusLine)
    requires IsStatusLine(l)
    ensures StatusOf(StatusLineText(l)) == if l.status < 65_536 then Some(l.status) else None
  {
    hide Words, Decimal, ParseU64, IsWhitespace, AllWhite, NoReturn;
    var digits := Decimal(l.status) + l.tail;
    DigitsAreNoSpace(l.status);
    WordsAfterSpace(l.lead, l.version + (l.gap + digits));
    FirstIsWhite(l.gap, digits);
    FirstWord(l.version, l.gap + digits);
    WordsAfterSpace(l.gap, digits);
    FirstWord(Decimal(l.status), l.tail);
    NumberOfDecimal(l.status);
  }

  lemma FirstIsWhite(gap: string, more: string)
    requires gap != "" && AllWhite(gap)
    ensures gap + more != "" && IsWhitespace((gap + more)[0])
  {
    assert gap[0] in gap;
  }

  lemma NumberOfDecimal(n: nat)
    ensures ParseU64(Decimal(n)) == if n < U64_LIMIT then Some(n) else None
  {
    hide Decimal, ValueOf;
    DecimalValue(n);
    assert IsDigit(Decimal(n)[0]);
  }

  // ---- The headers ----------------------------------------------------------

  lemma {:induction false} ColonAfter(name: string, more: string)
    requires ':' !in name
    ensures ColonIndex(name + (":" + more)) == |name|
  {
    var s := name + (":" + more);
    if name == "" {
      assert s[0] == ':';
    } else {
      assert name[0] in name && s[1..] == name[1..] + (":" + more);
      ColonAfter(name[1..], more);
    }
  }

  lemma {:induction false} NoColon(s: string)
    requires ':' !in s
    ensures ColonIndex(s) == |s|
  {
    if s == "" {
    } else {
      assert s[0] in s;
      NoColon(s[1..]);
    }
  }

  lemma WhiteIsNoColon(s: string)
    requires AllWhite(s)
    ensures ':' !in s
  {
    assert !IsWhitespace(':');
  }

  lemma HeaderReads(l: SentLine, rest: seq<string>)
    requires IsSentLine(l) && l.SentHeader?
    ensures HeadersOf([LineText(l)] + rest) == [l.header] + HeadersOf(rest)
  {
    hide ColonIndex, Trim, IsWhitespace, AllWhite, Trimmed, NoReturn;
    var h := l.header;
    var name, value := l.before + (h.name + l.beforeColon), l.afterColon + (h.value + l.after);
    var line, lines := LineText(l), [LineText(l)] + rest;
    assert line == name + (":" + value);
    WhiteIsNoColon(l.before);
    WhiteIsNoColon(l.beforeColon);
    ColonAfter(name, value);
    assert line[..|name|] == name && line[|name| + 1..] == value;
    TrimOf(l.before, h.name, l.beforeColon);
    TrimOf(l.afterColon, h.value, l.after);
    assert lines[0] == line && lines[1..] == rest;
  }

  lemma IgnoredReads(l: SentLine, rest: seq<string>)
    requires IsSentLine(l) && l.Ignored?
    ensures HeadersOf([LineText(l)] + rest) == HeadersOf(rest)
  {
    hide ColonIndex;
    NoColon(l.text);
    assert ([LineText(l)] + rest)[1..] == rest;
  }

  lemma {:induction false} HeadersRead(lines: seq<SentLine>)
    requires forall l <- lines :: IsSentLine(l)
    ensures HeadersOf(LineTexts(lines) + ["", ""]) == SentHeaders(lines)
  {
    if lines == [] {
      var two := ["", ""];
      assert two[1..] == [""] && two[1..][1..] == [];
      assert HeadersOf([""]) == [] + HeadersOf([]);
      assert LineTexts(lines) + two == two;
    } else {
      hide IsSentLine, LineText, HeadersOf;
      assert lines[0] in lines;
      var rest := LineTexts(lines[1..]) + ["", ""];
      match lines[0] {
        case SentHeader(_, _, _, _, _) => HeaderReads(lines[0], rest);
        case Ignored(_) => IgnoredReads(lines[0], rest);
      }
      HeadersRead(lines[1..]);
      Assoc([LineText(lines[0])], LineTexts(lines[1..]), ["", ""]);
    }
  }

  /** A line of a head: not empty, no carriage return. */
  predicate IsHeadLine(l: string) {
    l != "" && '\r' !in l
  }

  lemma SentIsLine(l: SentLine)
    requires IsSentLine(l)
    ensures IsHeadLine(LineText(l))
  {
    hide AllWhite, Trimmed;
    if l.SentHeader? { assert ":" <= ":" + (l.afterColon + (l.header.value + l.after)); }
  }

  lemma {:induction false} SentAreLines(lines: seq<SentLine>)
    requires forall l <- lines :: IsSentLine(l)
    ensures forall l <- LineTexts(lines) :: IsHeadLine(l)
  {
    hide IsSentLine, IsHeadLine;
    if lines == [] {
    } else {
      assert lines[0] in lines;
      SentAreLines(lines[1..]);
      SentIsLine(lines[0]);
    }
  }

  lemma StatusIsLine(l: StatusLine)
    requires IsStatusLine(l)
    ensures IsHeadLine(StatusLineText(l))
  {
    DigitsAreNoSpace(l.status);
    assert '\r' !in l.version by { assert IsWhitespace('\r'); }
    hide Decimal, IsWhitespace, AllWhite;
  }

  lemma HeadLinesAreLines(status: StatusLine, lines: seq<SentLine>)
    requires IsStatusLine(status) && forall l <- lines :: IsSentLine(l)
    ensures forall l <- HeadLines(status, lines) :: IsHeadLine(l)
  {
    hide StatusLineText, IsStatusLine, IsSentLine, IsHeadLine;
    StatusIsLine(status);
    SentAreLines(lines);
  }

  /** Parsing a head gives back its status and its headers, or refuses the status. */
  lemma HeadReads(status: StatusLine, lines: seq<SentLine>)
    requires IsStatusLine(status) && forall l <- lines :: IsSentLine(l)
    ensures ParseHead(HeadText(HeadLines(status, lines)))
         == if status.status < 65_536 then Some(Head(status.status, SentHeaders(lines))) else None
    ensures SplitLines(HeadText(HeadLines(status, lines)))[0] == StatusLineText(status)
  {
    hide StatusLineText, IsStatusLine, IsSentLine, SplitLines, StatusOf, HeadersOf, HeadText, IsHeadLine;
    var texts := HeadLines(status, lines);
    HeadLinesAreLines(status, lines);
    assert forall l <- texts :: '\r' !in l by { LinesHaveNoReturn(texts); }
    HeadSplits(texts);
    var all := texts + ["", ""];
    assert all[0] == StatusLineText(status) && all[1..] == LineTexts(lines) + ["", ""];
    StatusReads(status);
    HeadersRead(lines);
  }

  lemma LinesHaveNoReturn(texts: seq<string>)
    requires forall l <- texts :: IsHeadLine(l)
    ensures forall l <- texts :: '\r' !in l
  {}

  // ---- Finding the end of the head ------------------------------------------

  /** A line without its byte 13 cannot hold the end of the head, and the line
      that follows it does not start with one. */
  lemma EndAfterLine(line: bytes, more: bytes, i: nat)
    requires 13 !in line && more != [] && more[0] != 13 && FirstAt(more, HEAD_END, i)
    ensures FirstAt(line + (CRLF + more), HEAD_END, |line| + 2 + i)
  {
    hide OccursAt;
    var all, n := line + (CRLF + more), |line| + 2;
    assert all[n..] == more;
    forall j: nat | j <= n + i ensures OccursAt(all, HEAD_END, j) <==> j >= n && OccursAt(more, HEAD_END, j - n) {
      if j >= n {
        OccursLater(all, n, j - n);
      } else if j < |line| {
        assert all[j] == line[j] && line[j] in line;
        NotHere(all, j, 0);
      } else if j == |line| {
        assert all[j + 2] == more[0];
        NotHere(all, j, 2);
      } else {
        assert all[j] == 10;
        NotHere(all, j, 0);
      }
    }
  }

  lemma OccursLater(all: bytes, n: nat, k: nat)
    requires n <= |all|
    ensures OccursAt(all, HEAD_END, n + k) <==> OccursAt(all[n..], HEAD_END, k)
  {
    if n + k + 4 <= |all| { DropThenSlice(all, n, k, k + 4); }
  }

  lemma NotHere(all: bytes, j: nat, k: nat)
    requires k in {0, 2} && j + k < |all| && all[j + k] != 13
    ensures !OccursAt(all, HEAD_END, j)
  {
    if j + 4 <= |all| { assert all[j..j + 4][k] == all[j + k]; }
  }

  lemma EndHere(line: bytes, rest: bytes)
    requires 13 !in line
    ensures FirstAt(line + (HEAD_END + rest), HEAD_END, |line|)
  {
    hide OccursAt;
    var all := line + (HEAD_END + rest);
    assert OccursAt(all, HEAD_END, |line|) by { Here(line, rest); }
    forall j: nat | j < |line| ensures !OccursAt(all, HEAD_END, j) {
      assert all[j] == line[j] && line[j] in line;
      NotHere(all, j, 0);
    }
  }

  lemma Here(line: bytes, rest: bytes)
    ensures OccursAt(line + (HEAD_END + rest), HEAD_END, |line|)
  {
    assert (line + (HEAD_END + rest))[|line|..|line| + 4] == HEAD_END;
  }

  lemma LineIsClean(l: string)
    requires IsHeadLine(l)
    ensures var e := Utf8.Encode(l); 13 !in e && e != []
  {
    Utf8.AsciiByteIsChar(l, 13);
    Utf8.EncodedIsEmpty(l);
  }

  lemma HeadBytes(line: string, more: seq<string>)
    ensures Utf8.Encode(HeadText([line] + more)) == Utf8.Encode(line) + (CRLF + Utf8.Encode(HeadText(more)))
    ensures Utf8.Encode(HeadText([])) == CRLF
  {
    assert ([line] + more)[1..] == more;
    NewlineBytes();
    hide Utf8.Encode, HeadText;
    assert HeadText([line] + more) == line + (LINE_END + HeadText(more)) by { HeadTextCons(line, more); }
    Utf8.EncodeAppend(line, LINE_END + HeadText(more));
    Utf8.EncodeAppend(LINE_END, HeadText(more));
    assert HeadText([]) == LINE_END by { HeadTextEmpty(); }
  }

  lemma HeadTextEmpty()
    ensures HeadText([]) == LINE_END
  {}

  lemma HeadTextCons(line: string, more: seq<string>)
    ensures HeadText([line] + more) == line + (LINE_END + HeadText(more))
  {
    assert ([line] + more)[1..] == more;
  }

  lemma NewlineBytes()
    ensures Utf8.Encode(LINE_END) == CRLF
  {
    assert LINE_END[1..] == "\n" && "\n"[1..] == "";
    assert Utf8.Encode("\n") == [10] + Utf8.Encode("");
  }

  /** The first blank line is the one that ends the head. */
  lemma {:induction false} HeadEnds(lines: seq<string>, rest: bytes)
    requires lines != [] && forall l <- lines :: IsHeadLine(l)
    ensures var e := Utf8.Encode(HeadText(lines));
            |e| >= 4 && FirstAt(e + rest, HEAD_END, |e| - 4)
  {
    hide Utf8.Encode, HeadText, FirstAt, IsHeadLine;
    var line, more := lines[0], lines[1..];
    assert lines == [line] + more && line in lines;
    var l, e, m := Utf8.Encode(line), Utf8.Encode(HeadText(lines)), Utf8.Encode(HeadText(more));
    LineIsClean(line);
    HeadBytes(line, more);
    if more == [] {
      EndHere(l, rest);
      assert CRLF + CRLF == HEAD_END;
      assert e + rest == l + (HEAD_END + rest);
    } else {
      HeadEnds(more, rest);
      LineIsClean(more[0]);
      HeadBytes(more[0], more[1..]);
      assert more == [more[0]] + more[1..];
      assert m[0] == Utf8.Encode(more[0])[0] != 13;
      assert (m + rest)[0] == m[0];
      EndAfterLine(l, m + rest, |m| - 4);
      assert e + rest == l + (CRLF + (m + rest));
    }
  }

  // ---- The whole response ---------------------------------------------------

  /** The bytes of a body under each framing: a chunked one may be followed by
      anything; a counted one may too if it is whole, or be cut short by the end of
      the stream. */
  datatype SentBody =
    | InChunks(chunks: seq<Sent>, zero: Sent, trailer: bytes)
    | Counted(announced: u64, data: bytes, after: bytes)
    | Plain(data: bytes)

  function SentBytes(b: SentBody): bytes {
    match b
    case InChunks(chunks, zero, trailer) => EncodeChunked(chunks, zero, trailer)
    case Counted(_, data, after) => data + after
    case Plain(data) => data
  }

  function SentData(b: SentBody): bytes {
    match b
    case InChunks(chunks, _, _) => AllData(chunks)
    case Counted(_, data, _) => data
    case Plain(data) => data
  }

  /** The headers announce the framing, and the body keeps to it. */
  ghost predicate FramedAs(headers: seq<Header>, b: SentBody) {
    match b
    case InChunks(chunks, zero, trailer) =>
      && AnyChunked(headers) && (forall k <- chunks :: IsSent(k))
      && IsSizeLine(zero.digits, zero.space, zero.extension) && Hex.HexValue(zero.digits) == 0
      && |EncodeChunked(chunks, zero, trailer)| < U64_LIMIT
    case Counted(announced, data, after) =>
      && !AnyChunked(headers) && Announces(headers, announced)
      && (|data| == announced || (|data| < announced && after == []))
    case Plain(_) => !AnyChunked(headers) && forall n: u64 :: !Announces(headers, n)
  }

  lemma BodyReads(status: nat, headers: seq<Header>, b: SentBody)
    requires FramedAs(headers, b)
    ensures BodyOf(Head(status, headers), SentBytes(b)) == Response(status, headers, SentData(b))
  {
    hide FramingOf, EncodeChunked, AllData, Decode, IsSent, IsSizeLine, Hex.AllHex, AnyChunked, Announces;
    match b {
      case InChunks(chunks, zero, trailer) =>
        FramingExactly(headers, 0);
        DecodingInvertsEncoding(chunks, zero, trailer);
      case Counted(announced, data, after) =>
        FramingExactly(headers, announced);
        if |data| == announced { assert (data + after)[..|data|] == data; } else { assert data + after == data; }
      case Plain(_) => FramingExactly(headers, 0);
    }
  }

  /** Receiving inverts sending: whatever head a server writes and whichever framing
      its headers announce, the client ends up with its status, its headers in order
      and its data, or refuses a status it has no room for. */
  lemma ReceivingInvertsSending(lossy: bytes -> string, status: StatusLine, lines: seq<SentLine>, b: SentBody)
    requires IsStatusLine(status) && (forall l <- lines :: IsSentLine(l)) && FramedAs(SentHeaders(lines), b)
    requires var text := HeadText(HeadLines(status, lines)); lossy(Utf8.Encode(text)) == text
    ensures var head := Utf8.Encode(HeadText(HeadLines(status, lines)));
            ResponseOf(lossy, head + SentBytes(b))
            == if status.status < 65_536 then Response(status.status, SentHeaders(lines), SentData(b))
               else BadStatusLine(StatusLineText(status))
  {
    hide HeadText, IsStatusLine, IsSentLine, IsHeadLine, FramedAs, ParseHead, BodyOf, FindSubslice, FirstAt, SentBytes;
    hide SplitLines;
    hide SentData, Utf8.Encode;
    var texts := HeadLines(status, lines);
    var head := Utf8.Encode(HeadText(texts));
    HeadLinesAreLines(status, lines);
    HeadEnds(texts, SentBytes(b));
    FindSubsliceExactly(head + SentBytes(b), HEAD_END, |head| - 4);
    assert (head + SentBytes(b))[..|head|] == head && (head + SentBytes(b))[|head|..] == SentBytes(b);
    HeadReads(status, lines);
    BodyReads(status.status, SentHeaders(lines), b);
  }

  /** A stream that ends before the head does is refused, and no other is refused
      for that. */
  lemma HeadIsNeeded(lossy: bytes -> string, stream: bytes)
    ensures ResponseOf(lossy, stream) == ClosedBeforeHeaders <==> forall i: nat :: !OccursAt(stream, HEAD_END, i)
  {
    hide FindSubslice, ParseHead, OccursAt, Decode, FramingOf;
    if FindSubslice(stream, HEAD_END).Some? {
      FindSubsliceExactly(stream, HEAD_END, FindSubslice(stream, HEAD_END).value);
    }
    forall i: nat | OccursAt(stream, HEAD_END, i) ensures FindSubslice(stream, HEAD_END).Some? {
      var k := LeastOccurrence(stream, i);
      FindSubsliceExactly(stream, HEAD_END, k);
    }
  }

  lemma {:induction false} LeastOccurrence(stream: bytes, i: nat) returns (k: nat)
    requires OccursAt(stream, HEAD_END, i)
    ensures FirstAt(stream, HEAD_END, k)
    decreases i
  {
    hide OccursAt;
    if j: nat :| j < i && OccursAt(stream, HEAD_END, j) {
      k := LeastOccurrence(stream, j);
    } else {
      k := i;
    }
  }
}
