/** From the bytes of the log's HTTP response to the outcome that is recorded
    (src/log_anchor.rs). */
module LogExchange {
  import opened Basics
  import opened Text
  import opened Json
  import opened Records
  import opened Ingest
  import opened Receipts
  import opened HttpRoundTrip
  import HttpResponse
  import Chunked
  import Hex
  import Utf8
  import Timestamps

  /** The first 200 characters of an error body are recorded. */
  function Snippet(text: string): string {
    if text == "" then "" else ": " + (if |text| <= 200 then text else text[..200])
  }

  /** What the handler goes on with: a 2xx body as it is, and a reason for all else;
      None is a panic. `complaint` stands for the words of the JSON parser or of the
      check of the receipt. */
  function ReplyOf(lossy: bytes -> string, r: HttpResponse.Received, complaint: string): Option<LogReply> {
    match r
    case Response(status, _, body) =>
      if 200 <= status < 300 then Some(Answered(lossy(body), complaint))
      else Some(Failed("log refused the commitment: " + Decimal(status) + Snippet(lossy(body))))
    case ClosedBeforeHeaders => Some(Failed("log unreachable: connection closed before headers"))
    case BadStatusLine(line) => Some(Failed("log unreachable: bad status line `" + line + "`"))
    case ClosedMidChunk => Some(Failed("log unreachable: connection closed mid-chunk"))
    case Panicked => None
  }

  /** The hop to the log, however its response is cut into reads. */
  method Hop(conn: HttpResponse.Connection, lossy: bytes -> string, complaint: string) returns (r: Option<LogReply>)
    requires conn.Valid()
    modifies conn
    ensures r == ReplyOf(lossy, HttpResponse.ResponseOf(lossy, HttpResponse.Joined(old(conn.pieces))), complaint)
  {
    var received := HttpResponse.Receive(conn, lossy);
    match received {
      case Response(status, _, body) =>
        var text := lossy(body);
        if 200 <= status < 300 { return Some(Answered(text, complaint)); }
        return Some(Failed("log refused the commitment: " + Decimal(status) + Snippet(text)));
      case ClosedBeforeHeaders =>
        return Some(Failed("log unreachable: connection closed before headers"));
      case BadStatusLine(line) =>
        return Some(Failed("log unreachable: bad status line `" + line + "`"));
      case ClosedMidChunk =>
        return Some(Failed("log unreachable: connection closed mid-chunk"));
      case Panicked =>
        return None;
    }
  }

  /** Lossy decoding leaves valid text alone. */
  ghost predicate DecodesText(lossy: bytes -> string, text: string) {
    lossy(Utf8.Encode(text)) == text
  }

  /** The whole hop, from the log's receipt to the recorded outcome: a log that
      answers with its receipt in a 2xx response, under whatever head and framing,
      is recorded as the anchor with each of its values in its own field. */
  lemma ReceiptCrossesTheWire(lossy: bytes -> string, status: StatusLine, lines: seq<SentLine>, b: SentBody,
      s: AnchorSummary, proof: Json, how: Numbering, style: Style, complaint: string, h: Hex.Hash)
    requires IsStatusLine(status) && (forall l <- lines :: IsSentLine(l)) && FramedAs(SentHeaders(lines), b)
    requires 200 <= status.status < 300 && FreeParts(proof, how, 126)
    requires s.logId != "" && Timestamps.Printable(s.loggedAt)
    requires SentData(b) == Utf8.Encode(Print(Receipt(s, proof, how), style, 0))
    requires DecodesText(lossy, HeadText(HeadLines(status, lines)))
    requires DecodesText(lossy, Print(Receipt(s, proof, how), style, 0))
    ensures var stream := Utf8.Encode(HeadText(HeadLines(status, lines))) + SentBytes(b);
            var reply := ReplyOf(lossy, HttpResponse.ResponseOf(lossy, stream), complaint);
            && reply.Some?
            && Outcome(reply.value, h)
               == Anchoring(Anchored, None, Some(s.logId), Some(s.receiptSeq), Some(s.treeSize), Some(s.root),
                            Some(s.loggedAt), Some(h), Some(Receipt(s, proof, how)))
  {
    hide HeadText, HeadLines, IsStatusLine, IsSentLine, FramedAs, SentBytes, SentData, Utf8.Encode, Print, Receipt;
    hide FreeParts, Outcome, Timestamps.Printable, HttpResponse.ResponseOf;
    ReceivingInvertsSending(lossy, status, lines, b);
    AnswerIsRecorded(s, proof, how, style, complaint, h);
  }

  /** Unanchored for a refusal, of whose text at most 200 characters are kept. */
  ghost predicate RecordsRefusal(a: Anchoring, status: nat, text: string) {
    exists shown, cut ::
      && text == shown + cut && |shown| <= 200 && (cut != "" ==> |shown| == 200)
      && Nothing(a, "log refused the commitment: " + Decimal(status) + (if text == "" then "" else ": " + shown))
  }

  /** A response with any other status is recorded as unanchored, with the status and
      at most 200 characters of the body as the reason. */
  lemma RefusalCrossesTheWire(lossy: bytes -> string, status: StatusLine, lines: seq<SentLine>, b: SentBody,
      text: string, complaint: string, h: Hex.Hash)
    requires IsStatusLine(status) && (forall l <- lines :: IsSentLine(l)) && FramedAs(SentHeaders(lines), b)
    requires status.status < 200 || 300 <= status.status < 65_536
    requires SentData(b) == Utf8.Encode(text)
    requires DecodesText(lossy, HeadText(HeadLines(status, lines))) && DecodesText(lossy, text)
    ensures var stream := Utf8.Encode(HeadText(HeadLines(status, lines))) + SentBytes(b);
            var reply := ReplyOf(lossy, HttpResponse.ResponseOf(lossy, stream), complaint);
            reply.Some? && RecordsRefusal(Outcome(reply.value, h), status.status, text)
  {
    hide HeadText, HeadLines, IsStatusLine, IsSentLine, FramedAs, SentBytes, SentData, Utf8.Encode, Decimal;
    hide HttpResponse.ResponseOf;
    ReceivingInvertsSending(lossy, status, lines, b);
    if |text| <= 200 {
      assert text == text + "";
    } else {
      assert text == text[..200] + text[200..];
    }
  }

  /** A stream without a head, and a head whose status has no room, leave the error. */
  lemma ErrorCrossesTheWire(lossy: bytes -> string, stream: bytes, complaint: string, h: Hex.Hash)
    requires forall i: nat :: !Chunked.OccursAt(stream, HttpResponse.HEAD_END, i)
    ensures var reply := ReplyOf(lossy, HttpResponse.ResponseOf(lossy, stream), complaint);
            reply.Some? && Nothing(Outcome(reply.value, h), "log unreachable: connection closed before headers")
  {
    hide HttpResponse.ResponseOf;
    HeadIsNeeded(lossy, stream);
  }

  lemma BadStatusCrossesTheWire(lossy: bytes -> string, status: StatusLine, lines: seq<SentLine>, b: SentBody,
      complaint: string, h: Hex.Hash)
    requires IsStatusLine(status) && (forall l <- lines :: IsSentLine(l)) && FramedAs(SentHeaders(lines), b)
    requires status.status >= 65_536 && DecodesText(lossy, HeadText(HeadLines(status, lines)))
    ensures var stream := Utf8.Encode(HeadText(HeadLines(status, lines))) + SentBytes(b);
            var reply := ReplyOf(lossy, HttpResponse.ResponseOf(lossy, stream), complaint);
            && reply.Some?
            && Nothing(Outcome(reply.value, h), "log unreachable: bad status line `" + StatusLineText(status) + "`")
  {
    hide HeadText, HeadLines, IsStatusLine, IsSentLine, FramedAs, SentBytes, StatusLineText, Utf8.Encode;
    hide HttpResponse.ResponseOf;
    ReceivingInvertsSending(lossy, status, lines, b);
  }
}
