/** Decoding inverts any encoding section 7.1 of RFC 9112 allows: sizes in hex
    digits of either case, with optional extensions, and a trailer section. */
module ChunkedEncoding {
  import opened Basics
  import opened Text
  import opened Chunked
  import Hex
  import Utf8

  /** One chunk as an encoder may send it. */
  datatype Sent = Sent(digits: string, space: string, extension: string, data: bytes)

  predicate IsSizeLine(digits: string, space: string, extension: string) {
    && digits != "" && Hex.AllHex(digits) && Hex.HexValue(digits) < U64_LIMIT
    && (forall c <- space :: c == ' ' || c == '\t')
    && IsExtension(extension)
    && (forall c <- extension :: c != '\r')
  }

  predicate IsSent(k: Sent) {
    IsSizeLine(k.digits, k.space, k.extension) && k.data != [] && Hex.HexValue(k.digits) == |k.data|
  }

  function SizeLine(digits: string, space: string, extension: string): bytes {
    Utf8.Encode(digits + space + extension)
  }

  function ToChunk(k: Sent): Chunk {
    Chunk(SizeLine(k.digits, k.space, k.extension), k.data, CRLF)
  }

  function ToChunks(ks: seq<Sent>): seq<Chunk> {
    if ks == [] then [] else [ToChunk(ks[0])] + ToChunks(ks[1..])
  }

  /** `chunked-body`: the chunks, a zero-size line, and whatever ends the message. */
  function EncodeChunked(ks: seq<Sent>, zero: Sent, trailer: bytes): bytes {
    Encoded(ToChunks(ks), SizeLine(zero.digits, zero.space, zero.extension), trailer)
  }

  function AllData(ks: seq<Sent>): bytes {
    if ks == [] then [] else ks[0].data + AllData(ks[1..])
  }

  lemma {:induction false} BeforeFirstSemicolon(s: string, extension: string)
    requires ';' !in s && IsExtension(extension)
    ensures BeforeSemicolon(s + extension) == s
  {
    if s == "" {
      assert s + extension == extension;
    } else {
      assert (s + extension)[1..] == s[1..] + extension;
      BeforeFirstSemicolon(s[1..], extension);
    }
  }

  lemma HexIsPlain(digits: string)
    requires digits != "" && Hex.AllHex(digits)
    ensures ';' !in digits && '\r' !in digits && digits[0] != '+'
    ensures !IsWhitespace(digits[0]) && !IsWhitespace(digits[|digits| - 1])
  {
    hide IsWhitespace;
    NibbleIsPlain(digits[0]);
    NibbleIsPlain(digits[|digits| - 1]);
    forall c | c in digits ensures c != ';' && c != '\r' {
      var i :| 0 <= i < |digits| && digits[i] == c;
      NibbleIsPlain(digits[i]);
    }
  }

  lemma NibbleIsPlain(c: char)
    requires Hex.HexNibble(c).Some?
    ensures !IsWhitespace(c) && c != ';' && c != '\r' && c != '+'
  {}

  /** The size line of a conforming encoder announces the value of its digits. */
  lemma SizeLineReads(digits: string, space: string, extension: string)
    requires IsSizeLine(digits, space, extension)
    ensures ChunkSize(SizeLine(digits, space, extension)) == Size(Hex.HexValue(digits))
    ensures IsLine(SizeLine(digits, space, extension))
  {
    hide Utf8.Encode, Utf8.Decode, Trim, BeforeSemicolon, IsWhitespace, Hex.AllHex, Hex.HexValue;
    var s := digits + space + extension;
    HexIsPlain(digits);
    Utf8.DecodeEncode(s);
    BeforeFirstSemicolon(digits + space, extension);
    assert forall c <- space :: IsWhitespace(c) by { SpacesAreWhite(); }
    TrimOf("", digits, space);
    assert "" + (digits + space) == digits + space;
    Utf8.AsciiByteIsChar(s, 13);
  }

  lemma SpacesAreWhite()
    ensures IsWhitespace(' ') && IsWhitespace('\t')
  {}

  lemma {:induction false} SentChunks(ks: seq<Sent>)
    requires forall k <- ks :: IsSent(k)
    ensures forall x <- ToChunks(ks) :: IsChunk(x)
    ensures Contents(ToChunks(ks)) == AllData(ks)
  {
    hide ChunkSize, IsLine, SizeLine, IsSizeLine;
    if ks == [] {
    } else {
      SentChunks(ks[1..]);
      var k := ks[0];
      assert k in ks;
      SizeLineReads(k.digits, k.space, k.extension);
      assert ToChunks(ks)[1..] == ToChunks(ks[1..]);
    }
  }

  /** Decoding inverts encoding: any chunks, sizes and extensions, any trailer. */
  lemma DecodingInvertsEncoding(ks: seq<Sent>, zero: Sent, trailer: bytes)
    requires (forall k <- ks :: IsSent(k)) && IsSizeLine(zero.digits, zero.space, zero.extension)
        && Hex.HexValue(zero.digits) == 0
    requires |EncodeChunked(ks, zero, trailer)| < U64_LIMIT
    ensures Decode(EncodeChunked(ks, zero, trailer)) == Body(AllData(ks))
  {
    hide IsSent, IsSizeLine, DecodeAt, Encoded, ToChunks, Contents, AllData, ChunkSize, IsLine, SizeLine;
    SentChunks(ks);
    SizeLineReads(zero.digits, zero.space, zero.extension);
    var e := EncodeChunked(ks, zero, trailer);
    assert [] + e == e;
    EncodedDecodes([], ToChunks(ks), SizeLine(zero.digits, zero.space, zero.extension), trailer);
  }

  // ---- Every size line ------------------------------------------------------

  /** What a size line spells: a number in hex digits, perhaps behind a plus sign,
      white space around it, and anything behind a semicolon. */
  ghost predicate SpellsSize(s: string, n: u64) {
    exists w, d, v, ext ::
      AllWhite(w) && AllWhite(v) && IsSignedHex(d, n) && IsExtension(ext) && s == w + (d + v) + ext
  }

  predicate IsExtension(ext: string) {
    ext != "" ==> ext[0] == ';'
  }

  predicate IsSignedHex(d: string, n: u64) {
    var digits := if "+" <= d then d[1..] else d;
    digits != "" && Hex.AllHex(digits) && Hex.HexValue(digits) == n
  }

  lemma {:induction false} SemicolonSplits(s: string) returns (ext: string)
    ensures s == BeforeSemicolon(s) + ext && IsExtension(ext)
  {
    if s == "" || s[0] == ';' {
      ext := s;
    } else {
      ext := SemicolonSplits(s[1..]);
      assert s == [s[0]] + s[1..];
    }
  }

  lemma WhiteHasNoSemicolon(s: string)
    requires AllWhite(s)
    ensures ';' !in s
  {
    assert !IsWhitespace(';');
  }

  lemma SignedHexIsPlain(d: string, n: u64)
    requires IsSignedHex(d, n)
    ensures ';' !in d && Trimmed(d) && ParseHex(d) == Some(n)
  {
    hide Hex.HexValue;
    var digits := if "+" <= d then d[1..] else d;
    HexIsPlain(digits);
    assert !IsWhitespace('+');
    if d != digits { assert d == "+" + digits; }
  }

  lemma ParsedIsSignedHex(d: string, n: u64)
    requires ParseHex(d) == Some(n)
    ensures IsSignedHex(d, n)
  {}

  lemma SizeSpelled(s: string, n: u64)
    ensures ParseHex(Trim(BeforeSemicolon(s))) == Some(n) <==> SpellsSize(s, n)
  {
    hide Trim, Trimmed, BeforeSemicolon, ParseHex, IsSignedHex, AllWhite;
    if SpellsSize(s, n) {
      var w, d, v, ext :| AllWhite(w) && AllWhite(v) && IsSignedHex(d, n) && IsExtension(ext)
                          && s == w + (d + v) + ext;
      SignedHexIsPlain(d, n);
      WhiteHasNoSemicolon(w);
      WhiteHasNoSemicolon(v);
      BeforeFirstSemicolon(w + (d + v), ext);
      TrimOf(w, d, v);
    }
    if ParseHex(Trim(BeforeSemicolon(s))) == Some(n) {
      var ext := SemicolonSplits(s);
      var d := Trim(BeforeSemicolon(s));
      TrimExactly(BeforeSemicolon(s), d);
      var w, v :| AllWhite(w) && AllWhite(v) && BeforeSemicolon(s) == w + (d + v);
      ParsedIsSignedHex(d, n);
      assert s == w + (d + v) + ext;
    }
  }

  /** The sizes read off a line, exactly. */
  lemma SizeExactly(line: bytes, n: u64)
    ensures ChunkSize(line) == Size(n) <==> exists s :: SpellsSize(s, n) && line == Utf8.Encode(s)
  {
    hide Utf8.Decode, Utf8.Encode, ParseHex, Trim, BeforeSemicolon, SpellsSize;
    if ChunkSize(line) == Size(n) {
      Utf8.EncodeDecode(line);
      SizeSpelled(Utf8.Decode(line).value, n);
    }
    forall s | SpellsSize(s, n) && line == Utf8.Encode(s) ensures ChunkSize(line) == Size(n) {
      Utf8.DecodeEncode(s);
      SizeSpelled(s, n);
    }
  }

  // ---- Positions past 64 bits -----------------------------------------------

  /** The bytes of some chunks, without what ends them. */
  function Texts(chunks: seq<Chunk>): bytes {
    if chunks == [] then [] else ChunkText(chunks[0]) + Texts(chunks[1..])
  }

  /** A size so large that the position of the end of its chunk has no room. */
  predicate Overflows(at: nat, line: bytes) {
    IsLine(line) && ChunkSize(line).Size? && ChunkSize(line).n > 0 && at + |line| + 2 + ChunkSize(line).n >= U64_LIMIT
  }

  lemma OverflowHere(before: bytes, line: bytes, rest: bytes)
    requires Overflows(|before|, line)
    ensures DecodeAt(before + (line + (CRLF + rest)), |before|) == Panics
  {
    hide FindSubslice, ChunkSize, DecodeAt, IsLine;
    var raw, pos := before + (line + (CRLF + rest)), |before|;
    DecodeStep(raw, pos);
    assert raw[pos..] == line + (CRLF + rest);
    LineIsFound(line, rest);
    assert raw[pos..pos + |line|] == line;
  }

  lemma {:induction false} OverflowPanics(before: bytes, chunks: seq<Chunk>, line: bytes, rest: bytes)
    requires (forall k <- chunks :: IsChunk(k)) && Overflows(|before + Texts(chunks)|, line)
    requires |before + Texts(chunks)| < U64_LIMIT
    ensures DecodeAt(before + (Texts(chunks) + (line + (CRLF + rest))), |before|) == Panics
    decreases |chunks|
  {
    hide IsChunk, ChunkText, DecodeAt, Overflows;
    var tail := line + (CRLF + rest);
    if chunks == [] {
      assert Texts(chunks) + tail == tail && before + Texts(chunks) == before;
      OverflowHere(before, line, rest);
    } else {
      var k, more := chunks[0], Texts(chunks[1..]);
      assert k in chunks;
      var next := before + ChunkText(k);
      Assoc(before, ChunkText(k), more);
      Assoc(ChunkText(k), more, tail);
      Assoc(before, ChunkText(k), more + tail);
      PastChunk(before, k, more + tail);
      OverflowPanics(next, chunks[1..], line, rest);
    }
  }

  lemma PanicFinds(raw: bytes, pos: nat)
    requires pos <= |raw| && DecodeAt(raw, pos) == Panics
    ensures var i := FindSubslice(raw[pos..], CRLF);
            i.Some? && ChunkSize(raw[pos..pos + i.value]).Size? && ChunkSize(raw[pos..pos + i.value]).n > 0
  {
    hide FindSubslice, ChunkSize, DecodeAt;
    DecodeStep(raw, pos);
  }

  lemma {:induction false} PanicIsOverflow(raw: bytes, pos: nat)
      returns (chunks: seq<Chunk>, line: bytes, rest: bytes)
    requires pos <= |raw| && DecodeAt(raw, pos) == Panics
    ensures (forall k <- chunks :: IsChunk(k)) && Overflows(pos + |Texts(chunks)|, line)
    ensures raw[pos..] == Texts(chunks) + (line + (CRLF + rest))
    decreases |raw| - pos
  {
    hide FindSubslice, DecodeAt, IsChunk, IsLine, ChunkSize;
    PanicFinds(raw, pos);
    var i := FindSubslice(raw[pos..], CRLF).value;
    FoundIsLine(raw[pos..], i);
    line := raw[pos..pos + i];
    assert raw[pos..][..i] == line;
    if Overflows(pos, line) {
      chunks, rest := [], raw[pos..][i + 2..];
      assert raw[pos..] == [] + (line + (CRLF + rest));
    } else {
      var k, next := ChunkHere(raw, pos, i);
      ChunkTakesSpace(k);
      hide ChunkText, Overflows;
      var more;
      more, line, rest := PanicIsOverflow(raw, next);
      chunks := [k] + more;
      assert chunks[1..] == more;
      Assoc(ChunkText(k), Texts(more), line + (CRLF + rest));
    }
  }

  /** The decoder panics exactly at such a size, behind complete chunks. */
  lemma PanicsExactly(raw: bytes)
    requires |raw| < U64_LIMIT
    ensures Decode(raw) == Panics
       <==> exists chunks, line, rest ::
              && (forall k <- chunks :: IsChunk(k)) && Overflows(|Texts(chunks)|, line)
              && raw == Texts(chunks) + (line + (CRLF + rest))
  {
    hide IsChunk, Overflows, Texts, DecodeAt;
    if Decode(raw) == Panics {
      var chunks, line, rest := PanicIsOverflow(raw, 0);
      assert raw[0..] == raw;
    }
    forall chunks, line, rest | (forall k <- chunks :: IsChunk(k)) && Overflows(|Texts(chunks)|, line)
                                && raw == Texts(chunks) + (line + (CRLF + rest))
      ensures Decode(raw) == Panics
    {
      assert [] + Texts(chunks) == Texts(chunks) && [] + raw == raw;
      OverflowPanics([], chunks, line, rest);
    }
  }
}
