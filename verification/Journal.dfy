/** The journal as bytes: how its lines are read, what one replay accepts, and
    what appending to or cutting it does to the next replay (src/store.rs). */
module Journal {
  import opened Basics
  import opened Text
  import opened Records
  import opened JournalLines
  import opened JsonLexing
  import opened Json
  import Utf8

  const NEWLINE: byte := 10

  // ---- Reading lines --------------------------------------------------------

  function LineEnd(b: bytes): (k: nat)
    ensures k <= |b|
    ensures k < |b| ==> b[k] == NEWLINE
    ensures NEWLINE !in b[..k]
  {
    if b == [] || b[0] == NEWLINE then 0
    else
      assert b[..1 + LineEnd(b[1..])] == [b[0]] + b[1..][..LineEnd(b[1..])];
      1 + LineEnd(b[1..])
  }

  /** A carriage return before the newline belongs to the line ending. */
  function StripReturn(s: string): string {
    if s != "" && s[|s| - 1] == '\r' then s[..|s| - 1] else s
  }

  /** The text of one line, None where it is not UTF-8. */
  function LineText(raw: bytes, terminated: bool): Option<string> {
    match Utf8.Decode(raw)
    case None => None
    case Some(s) => Some(if terminated then StripReturn(s) else s)
  }

  function AfterLine(b: bytes): (r: bytes)
    ensures b != [] ==> |r| < |b|
  {
    if LineEnd(b) < |b| then b[LineEnd(b) + 1..] else []
  }

  /** `BufRead::lines`. */
  function Lines(b: bytes): seq<Option<string>>
    decreases |b|
  {
    if b == [] then [] else [LineText(b[..LineEnd(b)], LineEnd(b) < |b|)] + Lines(AfterLine(b))
  }

  lemma LinesUnfold(b: bytes)
    requires b != []
    ensures Lines(b) == [LineText(b[..LineEnd(b)], LineEnd(b) < |b|)] + Lines(AfterLine(b))
  {}

  class LineReader {
    const content: bytes
    var pos: nat

    constructor (content: bytes)
      ensures this.content == content && pos == 0
    {
      this.content := content;
      pos := 0;
    }

    /** The outer None is the end of the file, the inner one a decoding error. */
    method Next() returns (line: Option<Option<string>>)
      requires pos <= |content|
      modifies this
      ensures pos <= |content|
      ensures Lines(old(content[pos..])) == if line.None? then [] else [line.value] + Lines(content[pos..])
      ensures line.None? ==> pos == |content|
    {
      hide Lines, LineText;
      var start := pos;
      while pos < |content| && content[pos] != NEWLINE
        invariant start <= pos <= |content|
        invariant NEWLINE !in content[start..pos]
      {
        pos := pos + 1;
      }
      FirstLine(content, start, pos);
      if pos == start && pos == |content| { return None; }
      var text := LineText(content[start..pos], pos < |content|);
      if pos < |content| { pos := pos + 1; }
      return Some(text);
    }
  }

  /** The first line of the rest of a file ends at the first newline. */
  lemma FirstLine(content: bytes, start: nat, end: nat)
    requires start <= end <= |content| && NEWLINE !in content[start..end]
    requires end < |content| ==> content[end] == NEWLINE
    ensures Lines(content[start..])
         == if start == |content| then []
            else
              var next := if end < |content| then end + 1 else end;
              [LineText(content[start..end], end < |content|)] + Lines(content[next..])
  {
    hide LineText, Lines, LineEnd;
    var rest, line := content[start..], content[start..end];
    assert rest == line + content[end..];
    LineEndsAt(line, content[end..]);
    if rest == [] { NoLines(); } else { LinesUnfold(rest); }
    assert rest[..|line|] == line;
    if end < |content| {
      DropTwice(content, start, end);
    } else {
      assert content[end..] == [];
      NoLines();
    }
  }

  lemma NoLines()
    ensures Lines([]) == []
  {}

  lemma DropTwice(content: bytes, start: nat, end: nat)
    requires start <= end < |content|
    ensures content[start..][end - start + 1..] == content[end + 1..]
  {}

  lemma LineEndsAt(line: bytes, rest: bytes)
    requires NEWLINE !in line && (rest == [] || rest[0] == NEWLINE)
    ensures LineEnd(line + rest) == |line|
  {
    NoNewline(line);
    LineEndAppend(line, rest);
  }

  // ---- Replay ---------------------------------------------------------------

  /** Replay from the `n`-th line on. */
  function ReplayLines(c: Service, lines: seq<Option<string>>, n: nat): Option<seq<SnapshotRecord>> {
    if lines == [] then Some([])
    else if lines[0].None? then None
    else
      match DecodeLine(lines[0].value)
      case None => if |lines| == 1 && !IsBlank(lines[0].value) then Some([]) else None
      case Some(r) =>
        if r.seqNo != n || !DigestMatches(c, r) then None
        else PrependAll([r], ReplayLines(c, lines[1..], n + 1))
  }

  function Replay(c: Service, b: bytes): Option<seq<SnapshotRecord>> {
    ReplayLines(c, Lines(b), 0)
  }

  /** A line holds the record due at its place, with the digest of its body. */
  predicate Holds(c: Service, line: Option<string>, n: nat, r: SnapshotRecord) {
    line.Some? && DecodeLine(line.value) == Some(r) && r.seqNo == n && DigestMatches(c, r)
  }

  predicate Torn(line: Option<string>) {
    line.Some? && DecodeLine(line.value) == None && !IsBlank(line.value)
  }

  /** The promise: every line holds its record, except that the last may be a
      torn line, which is dropped. */
  predicate ReplaysTo(c: Service, lines: seq<Option<string>>, n: nat, rs: seq<SnapshotRecord>) {
    && |rs| <= |lines| <= |rs| + 1
    && (forall i :: 0 <= i < |rs| ==> Holds(c, lines[i], n + i, rs[i]))
    && (|lines| == |rs| + 1 ==> Torn(lines[|rs|]))
  }

  lemma {:induction false} ReplayLinesExactly(c: Service, lines: seq<Option<string>>, n: nat, rs: seq<SnapshotRecord>)
    ensures ReplayLines(c, lines, n) == Some(rs) <==> ReplaysTo(c, lines, n, rs)
  {
    hide DecodeLine, DigestMatches, IsBlank;
    if lines == [] || rs == [] {
    } else {
      ReplayLinesExactly(c, lines[1..], n + 1, rs[1..]);
      assert rs == [rs[0]] + rs[1..];
      if ReplaysTo(c, lines, n, rs) {
        forall i | 0 <= i < |rs| - 1 ensures Holds(c, lines[1..][i], n + 1 + i, rs[1..][i]) {
          assert Holds(c, lines[i + 1], n + (i + 1), rs[i + 1]);
        }
        assert Holds(c, lines[0], n + 0, rs[0]);
      }
      if ReplayLines(c, lines, n) == Some(rs) {
        forall i | 0 <= i < |rs| ensures Holds(c, lines[i], n + i, rs[i]) {
          if i > 0 { assert Holds(c, lines[1..][i - 1], n + 1 + (i - 1), rs[1..][i - 1]); }
        }
      }
    }
  }

  /** Replay succeeds with `rs` exactly when the journal holds `rs` line by line,
      give or take a torn last line. */
  lemma ReplayExactly(c: Service, b: bytes, rs: seq<SnapshotRecord>)
    ensures Replay(c, b) == Some(rs) <==> ReplaysTo(c, Lines(b), 0, rs)
  {
    ReplayLinesExactly(c, Lines(b), 0, rs);
  }

  // ---- Lines of joined journals ---------------------------------------------

  predicate Terminated(b: bytes) {
    b == [] || b[|b| - 1] == NEWLINE
  }

  lemma {:induction false} LineEndAppend(a: bytes, b: bytes)
    ensures LineEnd(a + b) == if LineEnd(a) < |a| then LineEnd(a) else |a| + LineEnd(b)
  {
    if a == [] {
      assert a + b == b;
    } else if a[0] != NEWLINE {
      assert (a + b)[1..] == a[1..] + b;
      LineEndAppend(a[1..], b);
    }
  }

  lemma {:induction false} NoNewline(a: bytes)
    requires NEWLINE !in a
    ensures LineEnd(a) == |a|
  {}

  /** The bytes after the last newline. */
  function Tail(b: bytes): (t: bytes)
    ensures |t| <= |b|
  {
    if LineEnd(b) == |b| then b else Tail(AfterLine(b))
  }

  /** Everything up to and including the last newline. */
  function Head(b: bytes): bytes {
    b[..|b| - |Tail(b)|]
  }

  lemma {:induction false} HeadAndTail(b: bytes)
    ensures b == Head(b) + Tail(b) && Terminated(Head(b)) && NEWLINE !in Tail(b)
    ensures Terminated(b) <==> Tail(b) == []
  {
    var k := LineEnd(b);
    TailUnfold(b);
    hide LineEnd, Terminated, Tail;
    if k == |b| {
      assert b[..k] == b;
      assert Head(b) == [];
      LastIn(b);
      EmptyTerminated();
    } else {
      var line, rest := b[..k + 1], AfterLine(b);
      assert line[k] == b[k];
      HeadAndTail(rest);
      assert b == line + rest;
      WithoutEnd(line, rest, |Tail(rest)|);
      Assoc(line, Head(rest), Tail(rest));
      JoinTerminated(line, Head(rest));
      JoinTerminated(line, rest);
    }
  }

  lemma TailUnfold(b: bytes)
    ensures Tail(b) == if LineEnd(b) == |b| then b else Tail(AfterLine(b))
  {}

  lemma WithoutEnd(a: bytes, b: bytes, n: nat)
    requires n <= |b|
    ensures (a + b)[..|a + b| - n] == a + b[..|b| - n]
  {}

  lemma LastIn(b: bytes)
    requires NEWLINE !in b
    ensures Terminated(b) <==> b == []
  {
    if b != [] { assert b[|b| - 1] in b; }
  }

  lemma EmptyTerminated()
    ensures Terminated([])
  {}

  lemma JoinTerminated(a: bytes, b: bytes)
    requires a != [] && a[|a| - 1] == NEWLINE
    ensures Terminated(a + b) <==> Terminated(b)
  {}

  /** Bytes after a terminated, non-empty journal leave its first line alone. */
  lemma FirstLineStays(a: bytes, b: bytes)
    requires a != [] && Terminated(a)
    ensures LineEnd(a) < |a| && LineEnd(a + b) == LineEnd(a)
    ensures (a + b)[..LineEnd(a)] == a[..LineEnd(a)]
    ensures AfterLine(a + b) == AfterLine(a) + b && Terminated(AfterLine(a))
  {
    hide LineEnd, Terminated;
    HasNewline(a);
    LineEndAppend(a, b);
    var k := LineEnd(a);
    var line, rest := a[..k + 1], a[k + 1..];
    assert line[k] == a[k];
    assert a == line + rest;
    JoinTerminated(line, rest);
    Assoc(line, rest, b);
    assert |line| == k + 1;
    assert (line + (rest + b))[k + 1..] == rest + b;
    assert (line + (rest + b))[..k] == line[..k] == a[..k];
  }

  lemma HasNewline(a: bytes)
    requires a != [] && Terminated(a)
    ensures LineEnd(a) < |a|
  {
    assert a[..|a|] == a;
  }

  /** After a newline, more bytes only add lines. */
  lemma {:induction false} LinesAppend(a: bytes, b: bytes)
    requires Terminated(a)
    ensures Lines(a + b) == Lines(a) + Lines(b)
    decreases |a|
  {
    if a == [] {
      assert a + b == b;
    } else {
      FirstLineStays(a, b);
      LinesUnfold(a);
      LinesUnfold(a + b);
      hide LineEnd, LineText, Lines, Terminated, AfterLine;
      LinesAppend(AfterLine(a), b);
      var first := LineText(a[..LineEnd(a)], true);
      Assoc([first], Lines(AfterLine(a)), Lines(b));
    }
  }

  /** Bytes without a newline are one line, terminated or not. */
  lemma OneLine(a: bytes)
    requires NEWLINE !in a
    ensures a != [] ==> Lines(a) == [LineText(a, false)]
    ensures Lines(a + [NEWLINE]) == [LineText(a, true)]
  {
    NoNewline(a);
    LineEndAppend(a, [NEWLINE]);
    assert a[..|a|] == a;
    assert (a + [NEWLINE])[..|a|] == a;
    assert AfterLine(a + [NEWLINE]) == [];
    assert Lines([]) == [];
  }

  /** The lines of a journal: those that are terminated, then its tail. */
  lemma LinesOf(b: bytes)
    ensures Lines(b) == Lines(Head(b)) + if Tail(b) == [] then [] else [LineText(Tail(b), false)]
  {
    HeadAndTail(b);
    LinesAppend(Head(b), Tail(b));
    OneLine(Tail(b));
  }

  // ---- Appended and cut lines -----------------------------------------------

  /** What `append_snapshot` writes. */
  function LineBytes(r: SnapshotRecord): bytes {
    Utf8.Encode(Line(r)) + [NEWLINE]
  }

  lemma LineHasNoNewline(r: SnapshotRecord)
    requires ReceiptWellFormed(r)
    ensures NEWLINE !in Utf8.Encode(Line(r)) && Line(r) != "" && StripReturn(Line(r)) == Line(r)
    ensures Utf8.Encode(Line(r)) != []
    ensures !IsBlank(Line(r))
  {
    hide Line, IsBlank;
    hide Utf8.Encode, BareObject, ToJournal, Depth;
    LineShape(r);
    var s := Line(r);
    Utf8.AsciiByteIsChar(s, NEWLINE);
    Utf8.EncodedIsEmpty(s);
    assert s[|s| - 1] in s;
    assert s[0] == '{';
    BlankMeansAllWhitespace(s);
  }

  /** The characters of a line's first `k` bytes, None inside a character. */
  function PartText(r: SnapshotRecord, k: nat): Option<string> {
    if k + 1 >= |LineBytes(r)| then Some(Line(r)) else Utf8.Decode(LineBytes(r)[..k])
  }

  /** The same part is some first characters: all of them only at the end. */
  lemma PartIsPrefix(r: SnapshotRecord, k: nat) returns (j: nat)
    requires ReceiptWellFormed(r) && 0 < k <= |LineBytes(r)|
    ensures k + 1 >= |LineBytes(r)| || Utf8.CharBoundary(Line(r), k) ==>
              0 < j <= |Line(r)| && PartText(r, k) == Some(Line(r)[..j])
                && (j == |Line(r)| <==> k + 1 >= |LineBytes(r)|)
    ensures !(k + 1 >= |LineBytes(r)| || Utf8.CharBoundary(Line(r), k)) ==> PartText(r, k) == None
  {
    hide Line, Utf8.Encode, Utf8.Decode, Utf8.CharBoundary, IsBlank;
    var s, e := Line(r), Utf8.Encode(Line(r));
    LineHasNoNewline(r);
    j := |s|;
    assert s[..|s|] == s;
    if k < |e| {
      assert LineBytes(r)[..k] == e[..k];
      Utf8.PrefixDecodesIff(s, k);
      if Utf8.CharBoundary(s, k) {
        j := Utf8.BoundaryPrefix(s, k);
        Utf8.DecodeEncode(s[..j]);
      }
    }
  }

  function Glued(t: string, part: Option<string>): Option<string> {
    match part case None => None case Some(s) => Some(t + s)
  }

  /** The first `k` bytes of a line, written behind a journal, join its tail. */
  lemma CutLines(b: bytes, r: SnapshotRecord, k: nat)
    requires ReceiptWellFormed(r) && 0 < k <= |LineBytes(r)| && Utf8.Decode(Tail(b)).Some?
    ensures Lines(b + LineBytes(r)[..k]) == Lines(Head(b)) + [Glued(Utf8.Decode(Tail(b)).value, PartText(r, k))]
  {
    hide Line, IsBlank, Lines, Tail, Head, Terminated, Utf8.Encode, Utf8.Decode;
    var t, e, x := Tail(b), Utf8.Encode(Line(r)), LineBytes(r)[..k];
    var u := Utf8.Decode(t).value;
    LineHasNoNewline(r);
    HeadAndTail(b);
    Utf8.EncodeDecode(t);
    Assoc(Head(b), t, x);
    LinesAppend(Head(b), t + x);
    if k == |e| + 1 {
      assert x == e + [NEWLINE];
      Assoc(t, e, [NEWLINE]);
      OneLine(t + e);
      FusedText(t, Line(r));
    } else {
      assert x == e[..k];
      assert NEWLINE !in t + x;
      OneLine(t + x);
      Utf8.DecodeAfter(u, x);
      if k == |e| {
        assert x == e;
        Utf8.DecodeEncode(Line(r));
      }
    }
  }

  /** A printed line right after an unterminated tail reads as one line. */
  lemma FusedText(t: bytes, s: string)
    requires Utf8.Decode(t).Some? && s != "" && StripReturn(s) == s
    ensures LineText(t + Utf8.Encode(s), true) == Some(Utf8.Decode(t).value + s)
  {
    hide Utf8.Decode, Utf8.Encode;
    Utf8.EncodeDecode(t);
    var u := Utf8.Decode(t).value;
    Utf8.EncodeAppend(u, s);
    Utf8.DecodeEncode(u + s);
    assert (u + s)[|u + s| - 1] == s[|s| - 1];
  }
}
