/** Chunked transfer decoding (src/http.rs; section 7.1 of RFC 9112). */
module Chunked {
  import opened Basics
  import opened Text
  import Hex
  import Utf8

  // ---- Searching ------------------------------------------------------------

  /** `find_subslice`: the first place the needle occurs. */
  function FindSubslice(hay: bytes, needle: bytes): (r: Option<nat>)
    requires needle != []
    ensures r.Some? ==> r.value + |needle| <= |hay|
  {
    if |hay| < |needle| then None
    else if needle <= hay then Some(0)
    else match FindSubslice(hay[1..], needle) case None => None case Some(i) => Some(i + 1)
  }

  predicate OccursAt(hay: bytes, needle: bytes, i: nat) {
    i + |needle| <= |hay| && hay[i..i + |needle|] == needle
  }

  lemma OccursShift(hay: bytes, needle: bytes, j: nat)
    requires hay != [] && j >= 1
    ensures OccursAt(hay, needle, j) <==> OccursAt(hay[1..], needle, j - 1)
  {
    if j + |needle| <= |hay| { DropThenSlice(hay, 1, j - 1, j - 1 + |needle|); }
  }

  predicate FirstAt(hay: bytes, needle: bytes, i: nat) {
    OccursAt(hay, needle, i) && forall j :: 0 <= j < i ==> !OccursAt(hay, needle, j)
  }

  lemma FirstShift(hay: bytes, needle: bytes, i: nat)
    requires hay != [] && i >= 1 && !OccursAt(hay, needle, 0)
    ensures FirstAt(hay, needle, i) <==> FirstAt(hay[1..], needle, i - 1)
  {
    hide OccursAt;
    forall j: nat | j >= 1 ensures OccursAt(hay, needle, j) <==> OccursAt(hay[1..], needle, j - 1) {
      OccursShift(hay, needle, j);
    }
    if FirstAt(hay, needle, i) {
      forall j: nat | j < i - 1 ensures !OccursAt(hay[1..], needle, j) { assert !OccursAt(hay, needle, j + 1); }
    }
  }

  /** It is the first occurrence, and there is none otherwise. */
  lemma {:induction false} FindSubsliceExactly(hay: bytes, needle: bytes, i: nat)
    requires needle != []
    ensures FindSubslice(hay, needle) == Some(i) <==> FirstAt(hay, needle, i)
  {
    if |hay| < |needle| {
    } else {
      assert OccursAt(hay, needle, 0) <==> needle <= hay;
      hide OccursAt;
      if i > 0 && !OccursAt(hay, needle, 0) {
        FindSubsliceExactly(hay[1..], needle, i - 1);
        FirstShift(hay, needle, i);
      }
    }
  }

  /** What was found stays the first when more bytes arrive. */
  lemma FoundStays(hay: bytes, more: bytes, needle: bytes)
    requires needle != []
    ensures FindSubslice(hay, needle).Some? ==> FindSubslice(hay + more, needle) == FindSubslice(hay, needle)
  {
    hide FindSubslice;
    if FindSubslice(hay, needle).Some? {
      var i := FindSubslice(hay, needle).value;
      FindSubsliceExactly(hay, needle, i);
      FindSubsliceExactly(hay + more, needle, i);
      forall j: nat | j <= i ensures OccursAt(hay + more, needle, j) <==> OccursAt(hay, needle, j) {
        assert (hay + more)[j..j + |needle|] == hay[j..j + |needle|];
      }
    }
  }

  // ---- The size line --------------------------------------------------------

  const CRLF: bytes := [13, 10]

  function BeforeSemicolon(s: string): string {
    if s == "" || s[0] == ';' then "" else [s[0]] + BeforeSemicolon(s[1..])
  }

  /** `usize::from_str_radix(_, 16)`. */
  function ParseHex(s: string): Option<u64> {
    var d := if s != "" && s[0] == '+' then s[1..] else s;
    if d == "" || !Hex.AllHex(d) || Hex.HexValue(d) >= U64_LIMIT then None else Some(Hex.HexValue(d))
  }

  datatype ChunkError = IncompleteHeader | BadHeader | BadSize | IncompleteData | IncompleteTrailer

  datatype Size = Size(n: u64) | NoSize(error: ChunkError)

  function ChunkSize(line: bytes): Size {
    match Utf8.Decode(line)
    case None => NoSize(BadHeader)
    case Some(s) => match ParseHex(Trim(BeforeSemicolon(s))) case None => NoSize(BadSize) case Some(n) => Size(n)
  }

  // ---- Decoding -------------------------------------------------------------

  /** `Panics` is the position overflowing a 64-bit `usize`. */
  datatype Decoded = Body(body: bytes) | Refused(error: ChunkError) | Panics

  /** A body with the data of an earlier chunk in front. */
  function After(data: bytes, d: Decoded): Decoded {
    if d.Body? then Body(data + d.body) else d
  }

  /** From `pos` on. The two bytes after a chunk's data are skipped unread, and
      nothing after the zero-size line is looked at. */
  function DecodeAt(raw: bytes, pos: nat): Decoded
    requires pos <= |raw|
    decreases |raw| - pos
  {
    match FindSubslice(raw[pos..], CRLF)
    case None => Refused(IncompleteHeader)
    case Some(i) =>
      match ChunkSize(raw[pos..pos + i])
      case NoSize(e) => Refused(e)
      case Size(size) =>
        var start := pos + i + 2;
        if size == 0 then Body([])
        else if start + size >= U64_LIMIT then Panics
        else if start + size > |raw| then Refused(IncompleteData)
        else if start + size + 2 > |raw| then Refused(IncompleteTrailer)
        else After(raw[start..start + size], DecodeAt(raw, start + size + 2))
  }

  function Decode(raw: bytes): Decoded {
    DecodeAt(raw, 0)
  }

  method DecodeChunkedBody(raw: bytes) returns (r: Decoded)
    ensures r == Decode(raw)
  {
    hide FindSubslice, ChunkSize, DecodeAt;
    var out: bytes := [];
    var pos := 0;
    AfterNothing(Decode(raw));
    while true
      invariant 0 <= pos <= |raw|
      invariant Decode(raw) == After(out, DecodeAt(raw, pos))
      decreases |raw| - pos
    {
      DecodeStep(raw, pos);
      var found := FindSubslice(raw[pos..], CRLF);
      if found.None? { return Refused(IncompleteHeader); }
      var lineEnd := found.value + pos;
      var size := ChunkSize(raw[pos..lineEnd]);
      if size.NoSize? { return Refused(size.error); }
      pos := lineEnd + 2;
      if size.n == 0 { assert out + [] == out; return Body(out); }
      if pos + size.n >= U64_LIMIT { return Panics; }
      if pos + size.n > |raw| { return Refused(IncompleteData); }
      ghost var data := raw[pos..pos + size.n];
      out := out + raw[pos..pos + size.n];
      pos := pos + size.n;
      if |raw| < pos + 2 { return Refused(IncompleteTrailer); }
      pos := pos + 2;
      AfterTwice(out[..|out| - size.n], data, DecodeAt(raw, pos));
      assert out[..|out| - size.n] + data == out;
    }
  }

  lemma DecodeStep(raw: bytes, pos: nat)
    requires pos <= |raw|
    ensures DecodeAt(raw, pos)
         == match FindSubslice(raw[pos..], CRLF)
            case None => Refused(IncompleteHeader)
            case Some(i) =>
              match ChunkSize(raw[pos..pos + i])
              case NoSize(e) => Refused(e)
              case Size(size) =>
                var start := pos + i + 2;
                if size == 0 then Body([])
                else if start + size >= U64_LIMIT then Panics
                else if start + size > |raw| then Refused(IncompleteData)
                else if start + size + 2 > |raw| then Refused(IncompleteTrailer)
                else After(raw[start..start + size], DecodeAt(raw, start + size + 2))
  {
    hide FindSubslice, ChunkSize, After;
  }

  lemma AfterNothing(d: Decoded)
    ensures After([], d) == d
  {
    if d.Body? { assert [] + d.body == d.body; }
  }

  lemma AfterTwice(a: bytes, b: bytes, d: Decoded)
    ensures After(a, After(b, d)) == After(a + b, d)
  {
    if d.Body? { Assoc(a, b, d.body); }
  }

  // ---- More bytes -----------------------------------------------------------

  /** The refusals that wait for more data. */
  predicate Incomplete(d: Decoded) {
    d.Refused? && (d.error.IncompleteHeader? || d.error.IncompleteData? || d.error.IncompleteTrailer?)
  }

  /** Anything but waiting for data is final: more bytes do not change it. */
  lemma {:induction false} FinalStays(raw: bytes, more: bytes, pos: nat)
    requires pos <= |raw| && !Incomplete(DecodeAt(raw, pos))
    ensures DecodeAt(raw + more, pos) == DecodeAt(raw, pos)
    decreases |raw| - pos
  {
    hide FindSubslice, ChunkSize, DecodeAt;
    var all := raw + more;
    DecodeStep(raw, pos);
    DecodeStep(all, pos);
    assert all[pos..] == raw[pos..] + more;
    if FindSubslice(raw[pos..], CRLF).Some? {
      FoundStays(raw[pos..], more, CRLF);
      var i := FindSubslice(raw[pos..], CRLF).value;
      assert all[pos..pos + i] == raw[pos..pos + i];
      var size := ChunkSize(raw[pos..pos + i]);
      if size.Size? && size.n > 0 && pos + i + 2 + size.n + 2 <= |raw| && pos + i + 2 + size.n < U64_LIMIT {
        var start := pos + i + 2;
        assert all[start..start + size.n] == raw[start..start + size.n];
        FinalStays(raw, more, start + size.n + 2);
      }
    }
  }

  /** A finished decoding is unchanged by whatever follows. */
  lemma DecodeIsStable(raw: bytes, more: bytes)
    ensures !Incomplete(Decode(raw)) ==> Decode(raw + more) == Decode(raw)
  {
    if !Incomplete(Decode(raw)) { FinalStays(raw, more, 0); }
  }

  // ---- The accepted language ------------------------------------------------

  /** A size line, the data it announces, and two bytes of any kind. */
  datatype Chunk = Chunk(line: bytes, data: bytes, pad: bytes)

  predicate IsLine(line: bytes) {
    forall i :: 0 <= i < |line| - 1 ==> !(line[i] == 13 && line[i + 1] == 10)
  }

  predicate IsChunk(k: Chunk) {
    IsLine(k.line) && k.data != [] && |k.pad| == 2 && ChunkSize(k.line).Size? && ChunkSize(k.line).n == |k.data|
  }

  predicate IsLast(line: bytes) {
    IsLine(line) && ChunkSize(line) == Size(0)
  }

  function ChunkText(k: Chunk): bytes {
    k.line + (CRLF + (k.data + k.pad))
  }

  function Encoded(chunks: seq<Chunk>, last: bytes, rest: bytes): bytes {
    if chunks == [] then last + (CRLF + rest) else ChunkText(chunks[0]) + Encoded(chunks[1..], last, rest)
  }

  function Contents(chunks: seq<Chunk>): bytes {
    if chunks == [] then [] else chunks[0].data + Contents(chunks[1..])
  }

  lemma CrlfAt(hay: bytes, j: nat)
    requires j + 2 <= |hay|
    ensures OccursAt(hay, CRLF, j) <==> hay[j] == 13 && hay[j + 1] == 10
  {
    assert hay[j..j + 2] == [hay[j], hay[j + 1]];
  }

  lemma LineIsFound(line: bytes, rest: bytes)
    requires IsLine(line)
    ensures FindSubslice(line + (CRLF + rest), CRLF) == Some(|line|)
  {
    hide FindSubslice, OccursAt;
    var all := line + (CRLF + rest);
    assert all[|line|] == 13 && all[|line| + 1] == 10;
    assert all[..|line|] == line;
    CrlfAt(all, |line|);
    forall j: nat | j < |line| ensures !OccursAt(all, CRLF, j) {
      CrlfAt(all, j);
      assert all[j] == line[j];
      if j + 1 < |line| { assert all[j + 1] == line[j + 1]; }
    }
    FindSubsliceExactly(all, CRLF, |line|);
  }

  lemma FoundIsLine(hay: bytes, i: nat)
    requires FindSubslice(hay, CRLF) == Some(i)
    ensures IsLine(hay[..i]) && hay == hay[..i] + (CRLF + hay[i + 2..])
  {
    hide FindSubslice;
    FindSubsliceExactly(hay, CRLF, i);
    forall j | 0 <= j < i - 1 ensures !(hay[j] == 13 && hay[j + 1] == 10) {
      assert !OccursAt(hay, CRLF, j);
      assert hay[j..j + 2] == [hay[j], hay[j + 1]];
    }
    assert hay[i..i + 2] == CRLF;
    assert hay == hay[..i] + hay[i..i + 2] + hay[i + 2..];
  }

  /** One chunk further on. */
  lemma PastChunk(before: bytes, k: Chunk, more: bytes)
    requires IsChunk(k) && |before| + |ChunkText(k)| < U64_LIMIT
    ensures DecodeAt(before + (ChunkText(k) + more), |before|)
         == After(k.data, DecodeAt(before + ChunkText(k) + more, |before + ChunkText(k)|))
  {
    hide FindSubslice, ChunkSize, DecodeAt, IsLine;
    var raw, pos := before + (ChunkText(k) + more), |before|;
    Assoc(before, ChunkText(k), more);
    DecodeStep(raw, pos);
    assert raw[pos..] == k.line + (CRLF + (k.data + k.pad + more));
    LineIsFound(k.line, k.data + k.pad + more);
    assert raw[pos..pos + |k.line|] == k.line;
    var start := pos + |k.line| + 2;
    assert raw[start..start + |k.data|] == k.data;
    assert |before + ChunkText(k)| == start + |k.data| + 2;
  }

  /** Everything of this shape decodes to its contents. */
  lemma {:induction false} EncodedDecodes(before: bytes, chunks: seq<Chunk>, last: bytes, rest: bytes)
    requires (forall k <- chunks :: IsChunk(k)) && IsLast(last)
    requires |before + Encoded(chunks, last, rest)| < U64_LIMIT
    ensures DecodeAt(before + Encoded(chunks, last, rest), |before|) == Body(Contents(chunks))
    decreases |chunks|
  {
    hide DecodeAt, IsChunk, IsLast, ChunkText;
    if chunks == [] {
      LastDecodes(before, last, rest);
    } else {
      var k, tail := chunks[0], Encoded(chunks[1..], last, rest);
      assert k in chunks;
      Assoc(before, ChunkText(k), tail);
      PastChunk(before, k, tail);
      EncodedDecodes(before + ChunkText(k), chunks[1..], last, rest);
    }
  }

  lemma LastDecodes(before: bytes, last: bytes, rest: bytes)
    requires IsLast(last)
    ensures DecodeAt(before + (last + (CRLF + rest)), |before|) == Body([])
  {
    hide FindSubslice, ChunkSize, DecodeAt, IsLine;
    var raw, pos := before + (last + (CRLF + rest)), |before|;
    DecodeStep(raw, pos);
    assert raw[pos..] == last + (CRLF + rest);
    LineIsFound(last, rest);
    assert raw[pos..pos + |last|] == last;
  }

  /** A size line is found where the decoder goes on. */
  lemma BodyHasSize(raw: bytes, pos: nat)
    requires pos <= |raw| && DecodeAt(raw, pos).Body?
    ensures var i := FindSubslice(raw[pos..], CRLF);
            && i.Some? && ChunkSize(raw[pos..pos + i.value]).Size?
            && var n := ChunkSize(raw[pos..pos + i.value]).n;
            n > 0 ==> pos + i.value + 2 + n < U64_LIMIT
  {
    hide FindSubslice, ChunkSize;
  }

  lemma LastHere(raw: bytes, pos: nat, i: nat)
    requires pos <= |raw| && FindSubslice(raw[pos..], CRLF) == Some(i) && ChunkSize(raw[pos..pos + i]) == Size(0)
    ensures IsLast(raw[pos..pos + i]) && DecodeAt(raw, pos) == Body([])
    ensures raw[pos..] == raw[pos..pos + i] + (CRLF + raw[pos + i + 2..])
  {
    hide FindSubslice, ChunkSize, DecodeAt, IsLine;
    DecodeStep(raw, pos);
    FoundIsLine(raw[pos..], i);
    assert raw[pos..][..i] == raw[pos..pos + i] && raw[pos..][i + 2..] == raw[pos + i + 2..];
  }

  /** A size that leaves room, and a decoder that goes on: a complete chunk. */
  lemma ChunkHere(raw: bytes, pos: nat, i: nat) returns (k: Chunk, next: nat)
    requires pos <= |raw| && FindSubslice(raw[pos..], CRLF) == Some(i) && !DecodeAt(raw, pos).Refused?
    requires var size := ChunkSize(raw[pos..pos + i]);
             size.Size? && size.n > 0 && pos + i + 2 + size.n < U64_LIMIT
    ensures IsChunk(k) && next == pos + |ChunkText(k)| <= |raw|
    ensures raw[pos..] == ChunkText(k) + raw[next..]
    ensures DecodeAt(raw, pos) == After(k.data, DecodeAt(raw, next))
  {
    hide FindSubslice, ChunkSize, DecodeAt, IsLine, After;
    DecodeStep(raw, pos);
    FoundIsLine(raw[pos..], i);
    var line := raw[pos..pos + i];
    assert raw[pos..][..i] == line;
    var start := pos + i + 2;
    var end := start + ChunkSize(line).n;
    k, next := Chunk(line, raw[start..end], raw[end..end + 2]), end + 2;
    assert raw[pos..][i + 2..] == raw[start..];
    assert raw[start..] == k.data + k.pad + raw[next..];
  }

  /** Whatever decodes has this shape. */
  lemma {:induction false} DecodedIsEncoded(raw: bytes, pos: nat) returns (chunks: seq<Chunk>, last: bytes, rest: bytes)
    requires pos <= |raw| && DecodeAt(raw, pos).Body?
    ensures (forall k <- chunks :: IsChunk(k)) && IsLast(last)
    ensures raw[pos..] == Encoded(chunks, last, rest) && DecodeAt(raw, pos) == Body(Contents(chunks))
    decreases |raw| - pos
  {
    hide FindSubslice, ChunkSize, DecodeAt, IsLast, IsChunk, ChunkText;
    BodyHasSize(raw, pos);
    var i := FindSubslice(raw[pos..], CRLF).value;
    if ChunkSize(raw[pos..pos + i]).n == 0 {
      chunks, last, rest := [], raw[pos..pos + i], raw[pos + i + 2..];
      LastHere(raw, pos, i);
    } else {
      var k, next := ChunkHere(raw, pos, i);
      assert |ChunkText(k)| > 0 by { ChunkTakesSpace(k); }
      var more;
      more, last, rest := DecodedIsEncoded(raw, next);
      chunks := [k] + more;
      assert chunks[1..] == more;
    }
  }

  lemma ChunkTakesSpace(k: Chunk)
    ensures |ChunkText(k)| > 0
  {}

  /** The decoder's language, exactly: size lines of hex digits with optional
      extensions, each with its data and two more bytes, up to a zero-size line;
      anything may follow. */
  lemma DecodesExactly(raw: bytes, body: bytes)
    requires |raw| < U64_LIMIT
    ensures Decode(raw) == Body(body)
       <==> exists chunks, last, rest ::
              && (forall k <- chunks :: IsChunk(k)) && IsLast(last)
              && raw == Encoded(chunks, last, rest) && body == Contents(chunks)
  {
    hide IsChunk, IsLast, Encoded, Contents, DecodeAt;
    if Decode(raw) == Body(body) {
      var chunks, last, rest := DecodedIsEncoded(raw, 0);
      assert raw[0..] == raw;
    }
    forall chunks, last, rest | (forall k <- chunks :: IsChunk(k)) && IsLast(last)
                                && raw == Encoded(chunks, last, rest) && body == Contents(chunks)
      ensures Decode(raw) == Body(body)
    {
      EncodedDecodes([], chunks, last, rest);
      assert [] + raw == raw;
    }
  }

  lemma {:induction false} EncodedRest(chunks: seq<Chunk>, last: bytes, rest: bytes)
    ensures Encoded(chunks, last, rest) == Encoded(chunks, last, []) + rest
  {
    if chunks == [] {
      assert CRLF + [] == CRLF;
      Assoc(last, CRLF, rest);
    } else {
      EncodedRest(chunks[1..], last, rest);
      Assoc(ChunkText(chunks[0]), Encoded(chunks[1..], last, []), rest);
    }
  }

  /** A prefix of a chunked stream decodes exactly when it reaches the end of the
      zero-size line; before that the decoder waits for more. */
  lemma PrefixDecodesIff(chunks: seq<Chunk>, last: bytes, rest: bytes, n: nat)
    requires (forall k <- chunks :: IsChunk(k)) && IsLast(last)
    requires |Encoded(chunks, last, rest)| < U64_LIMIT && n <= |Encoded(chunks, last, rest)|
    ensures var d := Decode(Encoded(chunks, last, rest)[..n]);
            if n >= |Encoded(chunks, last, [])| then d == Body(Contents(chunks)) else Incomplete(d)
  {
    hide IsChunk, IsLast, Encoded, Contents, DecodeAt;
    var all, end := Encoded(chunks, last, rest), Encoded(chunks, last, []);
    EncodedRest(chunks, last, rest);
    if n >= |end| {
      EncodedRest(chunks, last, rest[..n - |end|]);
      assert all[..n] == [] + Encoded(chunks, last, rest[..n - |end|]);
      EncodedDecodes([], chunks, last, rest[..n - |end|]);
    } else {
      assert all[..n] == [] + end[..n];
      ShortIsIncomplete([], chunks, last, n);
    }
  }

  /** Cut before the end of the zero-size line, the decoder waits. */
  lemma {:induction false} ShortIsIncomplete(before: bytes, chunks: seq<Chunk>, last: bytes, n: nat)
    requires (forall k <- chunks :: IsChunk(k)) && IsLast(last)
    requires |before + Encoded(chunks, last, [])| < U64_LIMIT && n < |Encoded(chunks, last, [])|
    ensures Incomplete(DecodeAt(before + Encoded(chunks, last, [])[..n], |before|))
    decreases |chunks|
  {
    hide FindSubslice, ChunkSize, DecodeAt, IsLine;
    var e := Encoded(chunks, last, []);
    var raw, pos := before + e[..n], |before|;
    DecodeStep(raw, pos);
    assert raw[pos..] == e[..n];
    var line := if chunks == [] then last else chunks[0].line;
    if chunks != [] { assert chunks[0] in chunks; }
    var after := if chunks == [] then [] else chunks[0].data + chunks[0].pad + Encoded(chunks[1..], last, []);
    assert e == line + (CRLF + after);
    if n < |line| + 2 {
      CutLineNotFound(line, after, n);
    } else {
      var k := chunks[0];
      var m := n - |line| - 2;
      assert e[..n] == line + (CRLF + after[..m]);
      LineIsFound(line, after[..m]);
      assert raw[pos..pos + |line|] == line;
      var start := pos + |line| + 2;
      if m >= |k.data| + 2 {
        var next := before + ChunkText(k);
        var tail := Encoded(chunks[1..], last, []);
        Assoc(before, ChunkText(k), tail);
        assert raw == next + tail[..m - |k.data| - 2];
        ShortIsIncomplete(next, chunks[1..], last, m - |k.data| - 2);
      }
    }
  }

  lemma CutLineNotFound(line: bytes, after: bytes, n: nat)
    requires IsLine(line) && n < |line| + 2
    ensures FindSubslice((line + (CRLF + after))[..n], CRLF) == None
  {
    hide FindSubslice;
    var all := line + (CRLF + after);
    LineIsFound(line, after);
    assert all[..n] + all[n..] == all;
    FoundStays(all[..n], all[n..], CRLF);
  }
}
