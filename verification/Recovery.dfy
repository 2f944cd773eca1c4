/** What an append, whole or cut short by a crash, means for the next replay. */
module Recovery {
  import opened Basics
  import opened Text
  import opened Records
  import opened JournalLines
  import opened Journal
  import Utf8

  /** A journal that ends in a newline (or is empty) and holds nothing torn. */
  predicate Clean(c: Service, b: bytes, rs: seq<SnapshotRecord>) {
    Replay(c, b) == Some(rs) && Terminated(b) && |Lines(b)| == |rs|
  }

  /** What `append_snapshot` has checked by the time it writes. */
  predicate Appendable(c: Service, rs: seq<SnapshotRecord>, r: SnapshotRecord) {
    r.seqNo == |rs| && DigestMatches(c, r)
  }

  // ---- Replaying one more line ----------------------------------------------

  /** What one more line may add: nothing if it is torn, or the record it holds. */
  predicate OneMore(c: Service, rs: seq<SnapshotRecord>, line: Option<string>, all: seq<SnapshotRecord>) {
    || (all == rs && Torn(line))
    || (|all| == |rs| + 1 && all == rs + [all[|rs|]] && Holds(c, line, |rs|, all[|rs|]))
  }

  /** Adding a line to a journal without torn lines. */
  lemma ReplayOneMore(c: Service, lines: seq<Option<string>>, rs: seq<SnapshotRecord>, line: Option<string>,
      all: seq<SnapshotRecord>)
    requires ReplaysTo(c, lines, 0, rs) && |lines| == |rs|
    ensures ReplaysTo(c, lines + [line], 0, all) <==> OneMore(c, rs, line, all)
  {
    hide ReplaysTo, OneMore;
    if ReplaysTo(c, lines + [line], 0, all) { ReplayedOneMore(c, lines, rs, line, all); }
    if OneMore(c, rs, line, all) { OneMoreReplays(c, lines, rs, line, all); }
  }

  lemma ReplayedOneMore(c: Service, lines: seq<Option<string>>, rs: seq<SnapshotRecord>, line: Option<string>,
      all: seq<SnapshotRecord>)
    requires ReplaysTo(c, lines, 0, rs) && |lines| == |rs| && ReplaysTo(c, lines + [line], 0, all)
    ensures OneMore(c, rs, line, all)
  {
    hide Holds, Torn;
    var more := lines + [line];
    forall i | 0 <= i < |rs| && i < |all| ensures all[i] == rs[i] {
      assert Holds(c, more[i], 0 + i, all[i]) && Holds(c, lines[i], 0 + i, rs[i]);
      HeldRecordIsUnique(c, lines[i], i, all[i], rs[i]);
    }
    assert |all| == |rs| ==> all == rs;
    if |all| == |rs| + 1 {
      assert all == rs + [all[|rs|]];
      assert Holds(c, more[|rs|], 0 + |rs|, all[|rs|]);
    }
  }

  lemma OneMoreReplays(c: Service, lines: seq<Option<string>>, rs: seq<SnapshotRecord>, line: Option<string>,
      all: seq<SnapshotRecord>)
    requires ReplaysTo(c, lines, 0, rs) && |lines| == |rs| && OneMore(c, rs, line, all)
    ensures ReplaysTo(c, lines + [line], 0, all)
  {
    hide Holds, Torn;
    var more := lines + [line];
    forall i | 0 <= i < |all| ensures Holds(c, more[i], 0 + i, all[i]) {
      if i < |rs| { assert Holds(c, lines[i], 0 + i, rs[i]); }
    }
  }

  lemma HeldRecordIsUnique(c: Service, line: Option<string>, n: nat, r: SnapshotRecord, s: SnapshotRecord)
    requires Holds(c, line, n, r) && Holds(c, line, n, s)
    ensures r == s
  {}

  lemma NotBothHeldAndTorn(c: Service, line: Option<string>, n: nat, r: SnapshotRecord)
    ensures !(Holds(c, line, n, r) && Torn(line))
  {}

  /** A torn line that is no longer last is fatal. */
  lemma TornInTheMiddle(c: Service, lines: seq<Option<string>>, rs: seq<SnapshotRecord>, line: Option<string>,
      all: seq<SnapshotRecord>)
    requires ReplaysTo(c, lines, 0, rs) && |lines| == |rs| + 1
    ensures !ReplaysTo(c, lines + [line], 0, all)
  {
    hide Holds, Torn;
    var more := lines + [line];
    if ReplaysTo(c, more, 0, all) {
      assert Holds(c, more[|rs|], 0 + |rs|, all[|rs|]);
      NotBothHeldAndTorn(c, lines[|rs|], |rs|, all[|rs|]);
    }
  }

  /** A last line that is not text is fatal. */
  lemma UnreadableLine(c: Service, lines: seq<Option<string>>, all: seq<SnapshotRecord>)
    ensures !ReplaysTo(c, lines + [None], 0, all)
  {
    hide DecodeLine, DigestMatches, IsBlank;
    assert (lines + [None])[|lines|] == None;
  }

  /** The last line of a replayable journal is text, and not blank. */
  lemma LastLineText(c: Service, b: bytes, rs: seq<SnapshotRecord>)
    requires Replay(c, b) == Some(rs)
    ensures Utf8.Decode(Tail(b)).Some?
    ensures !Terminated(b) ==> !IsBlank(Utf8.Decode(Tail(b)).value) && |Lines(b)| == |Lines(Head(b))| + 1
    ensures Terminated(b) ==> Utf8.Decode(Tail(b)) == Some("") && Head(b) == b
  {
    hide Lines, IsBlank, Tail, DecodeLine, DigestMatches, Replay, Terminated;
    ReplayExactly(c, b, rs);
    HeadAndTail(b);
    LinesOf(b);
    if Terminated(b) {
      assert b[..|b|] == b;
    } else {
      var n := |Lines(b)| - 1;
      var last := LineText(Tail(b), false);
      assert Lines(b)[n] == last;
      if |Lines(b)| == |rs| {
        assert Holds(c, Lines(b)[n], 0 + n, rs[n]);
        DecodedIsNotBlank(last.value);
      }
    }
  }

  lemma DecodedIsNotBlank(s: string)
    requires DecodeLine(s).Some?
    ensures !IsBlank(s)
  {
    hide DecodeLine, IsBlank;
    if IsBlank(s) { BlankDoesNotDecode(s); }
  }

  /** Without its last line a journal replays to the records before it. */
  lemma KeepHead(c: Service, lines: seq<Option<string>>, last: Option<string>, rs: seq<SnapshotRecord>,
      kept: seq<SnapshotRecord>)
    requires ReplaysTo(c, lines + [last], 0, rs)
    requires kept == if |lines| + 1 == |rs| then rs[..|lines|] else rs
    ensures ReplaysTo(c, lines, 0, kept) && |lines| == |kept|
  {
    hide Holds, Torn;
    forall i | 0 <= i < |kept| ensures Holds(c, lines[i], 0 + i, kept[i]) {
      assert Holds(c, (lines + [last])[i], 0 + i, rs[i]);
    }
  }

  // ---- Part of a line -------------------------------------------------------

  /** A line, whole or cut short, behind a non-blank tail is torn. */
  lemma TornByFusion(t: string, r: SnapshotRecord, j: nat)
    requires ReceiptWellFormed(r) && !IsBlank(t) && 0 < j <= |Line(r)|
    ensures Torn(Some(t + Line(r)[..j]))
  {
    hide DecodeLine, Line, IsBlank;
    GluedLineFails(t, r, j);
    BlankMeansAllWhitespace(t);
    BlankMeansAllWhitespace(t + Line(r)[..j]);
    assert forall i :: 0 <= i < |t| ==> (t + Line(r)[..j])[i] == t[i];
  }

  lemma LineStartsWithBrace(r: SnapshotRecord)
    requires ReceiptWellFormed(r)
    ensures Line(r) != "" && Line(r)[0] == '{'
  {
    hide Line;
    LineShape(r);
  }

  /** A line cut short on its own is torn. */
  lemma TornByCut(r: SnapshotRecord, j: nat)
    requires ReceiptWellFormed(r) && 0 < j < |Line(r)|
    ensures Torn(Some("" + Line(r)[..j]))
  {
    hide DecodeLine, Line, IsBlank;
    CutLineFails(r, j);
    LineStartsWithBrace(r);
    var s := Line(r)[..j];
    assert "" + s == s && s[0] == '{';
    BlankMeansAllWhitespace(s);
  }

  /** What a whole line of its own adds to the records before it. */
  function WholeLine(c: Service, rs: seq<SnapshotRecord>, r: SnapshotRecord): Option<seq<SnapshotRecord>> {
    match DecodeLine(Line(r))
    case None => Some(rs)
    case Some(q) => if q.seqNo == |rs| && DigestMatches(c, q) then Some(rs + [q]) else None
  }

  lemma AddWholeLine(c: Service, lines: seq<Option<string>>, rs: seq<SnapshotRecord>, r: SnapshotRecord)
    requires ReplaysTo(c, lines, 0, rs) && |lines| == |rs| && ReceiptWellFormed(r)
    ensures ReplayLines(c, lines + [Some(Line(r))], 0) == WholeLine(c, rs, r)
  {
    hide DecodeLine, Line, DigestMatches, IsBlank, ReplaysTo, ReplayLines;
    var more, w := lines + [Some(Line(r))], WholeLine(c, rs, r);
    LineHasNoNewline(r);
    if w.Some? {
      ReplayOneMore(c, lines, rs, Some(Line(r)), w.value);
      ReplayLinesExactly(c, more, 0, w.value);
    } else if ReplayLines(c, more, 0).Some? {
      var all := ReplayLines(c, more, 0).value;
      ReplayOneMore(c, lines, rs, Some(Line(r)), all);
      ReplayLinesExactly(c, more, 0, all);
    }
  }

  /** A record as the service makes it adds itself where it is due, if it replays,
      and nothing if it does not. */
  lemma ShapedWholeLine(c: Service, rs: seq<SnapshotRecord>, r: SnapshotRecord)
    requires ReceiptWellFormed(r) && WellShaped(r.anchoring) && DigestMatches(c, r)
    ensures WholeLine(c, rs, r)
         == if !Replayable(r) then Some(rs) else if r.seqNo == |rs| then Some(rs + [r]) else None
  {
    hide DecodeLine, Line, Replayable, DigestMatches, WellShaped;
    LineRoundTrip(r);
  }

  // ---- Any part of an append to any journal ---------------------------------

  /** The part of a line ends inside a character. */
  predicate InsideCharacter(r: SnapshotRecord, k: nat) {
    0 < k && k + 1 < |LineBytes(r)| && !Utf8.CharBoundary(Line(r), k)
  }

  /** What the next replay yields after `k` bytes of a line. */
  function AfterPart(c: Service, b: bytes, rs: seq<SnapshotRecord>, r: SnapshotRecord,
      k: nat): Option<seq<SnapshotRecord>> {
    if k == 0 then Some(rs)
    else if Terminated(b) && |Lines(b)| > |rs| then None
    else if InsideCharacter(r, k) then None
    else if !Terminated(b) then Some(if |Lines(b)| == |rs| && rs != [] then rs[..|rs| - 1] else rs)
    else if k + 1 < |LineBytes(r)| then Some(rs)
    else WholeLine(c, rs, r)
  }

  /** A crash after `k` bytes of an append, or the whole append, behind any journal
      that replays. After a torn line that was terminated, replay refuses; it
      refuses too where the part ends inside a character. Behind an unterminated
      tail the part is lost, and so is a complete last record that only lacked
      its newline. On a clean journal a part adds nothing and a whole line its
      record. */
  lemma CrashDuringAppend(c: Service, b: bytes, rs: seq<SnapshotRecord>, r: SnapshotRecord, k: nat)
    requires Replay(c, b) == Some(rs) && ReceiptWellFormed(r) && k <= |LineBytes(r)|
    ensures Replay(c, b + LineBytes(r)[..k]) == AfterPart(c, b, rs, r, k)
  {
    hide Lines, Line, ReplaysTo, ReplayLines, Terminated, Tail, Head, Holds, Torn, WholeLine, PartText, LineBytes;
    hide Utf8.CharBoundary, IsBlank, Utf8.Decode;
    if k == 0 {
      assert b + LineBytes(r)[..k] == b;
    } else {
      ReplayExactly(c, b, rs);
      LastLineText(c, b, rs);
      CutLines(b, r, k);
      var j := PartIsPrefix(r, k);
      var t := Utf8.Decode(Tail(b)).value;
      var text := Glued(t, PartText(r, k));
      if Terminated(b) {
        PartBehindNewline(c, Lines(b), rs, r, k, j, text);
      } else {
        PartBehindTail(c, b, rs, r, k, j, t);
      }
    }
  }

  lemma PartBehindNewline(c: Service, lines: seq<Option<string>>, rs: seq<SnapshotRecord>, r: SnapshotRecord, k: nat,
      j: nat, text: Option<string>)
    requires ReplaysTo(c, lines, 0, rs) && ReceiptWellFormed(r) && 0 < k <= |LineBytes(r)|
    requires text == if InsideCharacter(r, k) then None else if 0 < j <= |Line(r)| then Some("" + Line(r)[..j])
        else None
    requires !InsideCharacter(r, k) ==> 0 < j <= |Line(r)| && (j == |Line(r)| <==> k + 1 >= |LineBytes(r)|)
    ensures ReplayLines(c, lines + [text], 0)
         == if |lines| > |rs| || InsideCharacter(r, k) then None else if k + 1 < |LineBytes(r)| then Some(rs)
           else WholeLine(c, rs, r)
  {
    hide Line, ReplaysTo, ReplayLines, Holds, Torn, WholeLine, LineBytes, InsideCharacter;
    LengthOfReplay(c, lines, rs);
    var more := lines + [text];
    if |lines| > |rs| || InsideCharacter(r, k) {
      if ReplayLines(c, more, 0).Some? {
        var all := ReplayLines(c, more, 0).value;
        ReplayLinesExactly(c, more, 0, all);
        if |lines| > |rs| { TornInTheMiddle(c, lines, rs, text, all); } else { UnreadableLine(c, lines, all); }
      }
    } else if k + 1 < |LineBytes(r)| {
      TornByCut(r, j);
      ReplayOneMore(c, lines, rs, text, rs);
      ReplayLinesExactly(c, more, 0, rs);
    } else {
      assert "" + Line(r)[..j] == Line(r);
      AddWholeLine(c, lines, rs, r);
    }
  }

  lemma PartBehindTail(c: Service, b: bytes, rs: seq<SnapshotRecord>, r: SnapshotRecord, k: nat, j: nat, t: string)
    requires Replay(c, b) == Some(rs) && ReceiptWellFormed(r) && 0 < k <= |LineBytes(r)| && !Terminated(b)
    requires Utf8.Decode(Tail(b)) == Some(t)
    requires !InsideCharacter(r, k) ==> 0 < j <= |Line(r)| && PartText(r, k) == Some(Line(r)[..j])
    requires InsideCharacter(r, k) ==> PartText(r, k) == None
    ensures |Lines(b)| == |rs| ==> rs != []
    ensures ReplayLines(c, Lines(Head(b)) + [Glued(t, PartText(r, k))], 0)
         == if InsideCharacter(r, k) then None else Some(if |Lines(b)| == |rs| then rs[..|rs| - 1] else rs)
  {
    hide Lines, Line, ReplaysTo, ReplayLines, Terminated, Tail, Head, Holds, Torn, PartText, LineBytes;
    hide InsideCharacter, IsBlank;
    ReplayExactly(c, b, rs);
    LastLineText(c, b, rs);
    LinesOf(b);
    HeadAndTail(b);
    var lines, last, text := Lines(Head(b)), LineText(Tail(b), false), Glued(t, PartText(r, k));
    assert Lines(b) == lines + [last];
    var kept := if |lines| + 1 == |rs| then rs[..|lines|] else rs;
    KeepHead(c, lines, last, rs, kept);
    if InsideCharacter(r, k) {
      if ReplayLines(c, lines + [text], 0).Some? {
        var all := ReplayLines(c, lines + [text], 0).value;
        ReplayLinesExactly(c, lines + [text], 0, all);
        UnreadableLine(c, lines, all);
      }
    } else {
      TornByFusion(t, r, j);
      ReplayOneMore(c, lines, kept, text, kept);
      ReplayLinesExactly(c, lines + [text], 0, kept);
    }
  }

  lemma LengthOfReplay(c: Service, lines: seq<Option<string>>, rs: seq<SnapshotRecord>)
    requires ReplaysTo(c, lines, 0, rs)
    ensures |rs| <= |lines| <= |rs| + 1
  {}

  // ---- What later bytes cannot change ---------------------------------------

  /** The first lines of a journal that replays are themselves a journal that
      replays, to the first of its records. */
  lemma FirstLinesReplay(c: Service, lines: seq<Option<string>>, more: seq<Option<string>>, all: seq<SnapshotRecord>)
    requires ReplaysTo(c, lines + more, 0, all)
    ensures ReplaysTo(c, lines, 0, if |all| <= |lines| then all else all[..|lines|])
  {
    hide Holds, Torn;
    var both, kept := lines + more, if |all| <= |lines| then all else all[..|lines|];
    forall i | 0 <= i < |kept| ensures Holds(c, lines[i], 0 + i, kept[i]) {
      assert Holds(c, both[i], 0 + i, all[i]);
    }
    if |lines| == |all| + 1 { assert both[|all|] == lines[|all|]; }
  }

  /** Whatever is written behind a clean journal, its records stay: every replay
      that succeeds starts with them. */
  lemma CleanRecordsStay(c: Service, p: bytes, rs: seq<SnapshotRecord>, x: bytes, all: seq<SnapshotRecord>)
    requires Clean(c, p, rs) && Replay(c, p + x) == Some(all)
    ensures rs <= all
  {
    hide Lines, Replay, ReplaysTo, Terminated;
    ReplayExactly(c, p, rs);
    ReplayExactly(c, p + x, all);
    LinesAppend(p, x);
    FirstLinesReplay(c, Lines(p), Lines(x), all);
    var kept := if |all| <= |Lines(p)| then all else all[..|Lines(p)|];
    ReplayExactly(c, p, kept);
    assert kept == rs;
  }

  /** Whatever is written behind a terminated journal that does not replay, it
      still does not. */
  lemma NothingRevives(c: Service, b: bytes, x: bytes)
    requires Terminated(b) && Replay(c, b) == None
    ensures Replay(c, b + x) == None
  {
    hide Lines, Replay, ReplaysTo, Terminated;
    LinesAppend(b, x);
    if Replay(c, b + x).Some? {
      var all := Replay(c, b + x).value;
      ReplayExactly(c, b + x, all);
      FirstLinesReplay(c, Lines(b), Lines(x), all);
      ReplayExactly(c, b, if |all| <= |Lines(b)| then all else all[..|Lines(b)|]);
    }
  }

  /** The journal ends in a complete record that lacks its newline. */
  predicate ExposedTail(b: bytes, rs: seq<SnapshotRecord>) {
    !Terminated(b) && |Lines(b)| == |rs|
  }

  /** What no later byte can take away: all records but an exposed last one. */
  function Secured(b: bytes, rs: seq<SnapshotRecord>): seq<SnapshotRecord> {
    if ExposedTail(b, rs) && rs != [] then rs[..|rs| - 1] else rs
  }

  /** The beginning of a journal up to there is clean. */
  lemma SecuredPrefix(c: Service, b: bytes, rs: seq<SnapshotRecord>) returns (p: bytes)
    requires Replay(c, b) == Some(rs)
    ensures p <= b && Clean(c, p, Secured(b, rs))
    ensures ExposedTail(b, rs) ==> rs != []
  {
    hide Lines, Replay, ReplaysTo, Terminated, Head, Tail, LineText;
    LinesReplay(c, b, rs);
    LastLineText(c, b, rs);
    if Terminated(b) {
      if |Lines(b)| == |rs| {
        p := b;
      } else {
        p := LastLineCut(c, b, rs);
      }
    } else {
      p := TailCut(c, b, rs);
    }
  }

  lemma TailCut(c: Service, b: bytes, rs: seq<SnapshotRecord>) returns (p: bytes)
    requires Replay(c, b) == Some(rs) && !Terminated(b)
    ensures p <= b && Clean(c, p, if |Lines(b)| == |rs| then rs[..|rs| - 1] else rs)
    ensures Lines(b) != []
  {
    hide Lines, Head, Tail, LineText, ReplayLines, Terminated;
    p := Head(b);
    HeadAndTail(b);
    LinesOf(b);
    HeadIsClean(c, p, LineText(Tail(b), false), rs, Lines(b));
  }

  /** A head whose line-by-line journal, with one line more, replays to `rs`. */
  lemma HeadIsClean(c: Service, p: bytes, last: Option<string>, rs: seq<SnapshotRecord>, lines: seq<Option<string>>)
    requires Terminated(p) && lines == Lines(p) + [last] && ReplayLines(c, lines, 0) == Some(rs)
    ensures Clean(c, p, if |lines| == |rs| then rs[..|rs| - 1] else rs)
  {
    hide Lines, ReplayLines, ReplaysTo, Terminated;
    ReplayLinesExactly(c, lines, 0, rs);
    LengthOfReplay(c, lines, rs);
    var kept := if |lines| == |rs| then rs[..|rs| - 1] else rs;
    KeepHead(c, Lines(p), last, rs, kept);
    ReplayLinesExactly(c, Lines(p), 0, kept);
  }

  /** Without its torn last line. */
  lemma LastLineCut(c: Service, b: bytes, rs: seq<SnapshotRecord>) returns (p: bytes)
    requires Replay(c, b) == Some(rs) && Terminated(b) && |Lines(b)| == |rs| + 1
    ensures p <= b && Clean(c, p, rs)
  {
    hide Lines, Head, Tail, LineText, ReplayLines;
    assert b != [] by { NoLines(); }
    var b0 := b[..|b| - 1];
    assert b == b0 + [NEWLINE];
    p := Head(b0);
    HeadAndTail(b0);
    Assoc(p, Tail(b0), [NEWLINE]);
    LinesAppend(p, Tail(b0) + [NEWLINE]);
    OneLine(Tail(b0));
    HeadIsClean(c, p, LineText(Tail(b0), true), rs, Lines(b));
  }

  // ---- Whole appends --------------------------------------------------------

  lemma WholeIsAll(c: Service, b: bytes, rs: seq<SnapshotRecord>, r: SnapshotRecord)
    requires Replay(c, b) == Some(rs) && ReceiptWellFormed(r)
    ensures Replay(c, b + LineBytes(r)) == AfterPart(c, b, rs, r, |LineBytes(r)|) && LineBytes(r) != []
  {
    hide Replay, AfterPart;
    CrashDuringAppend(c, b, rs, r, |LineBytes(r)|);
    assert LineBytes(r)[..|LineBytes(r)|] == LineBytes(r);
  }

  /** A whole append adds the record where it is due, or nothing. */
  lemma WholeAppendAdds(c: Service, b: bytes, rs: seq<SnapshotRecord>, r: SnapshotRecord)
    requires Replay(c, b) == Some(rs) && ReceiptWellFormed(r) && WellShaped(r.anchoring) && DigestMatches(c, r)
    ensures var after := Replay(c, b + LineBytes(r));
            after.Some? ==> |after.value| <= |rs| || (after.value == rs + [r] && r.seqNo == |rs|)
  {
    hide Replay, Lines, Terminated, LineBytes, WholeLine, InsideCharacter, DigestMatches, WellShaped, Replayable;
    WholeIsAll(c, b, rs, r);
    ShapedWholeLine(c, rs, r);
  }

  /** Durability of an append, exactly: the next replay yields the record after
      those before it if and only if the journal was clean and the record is
      Replayable. */
  lemma AppendIsDurable(c: Service, b: bytes, rs: seq<SnapshotRecord>, r: SnapshotRecord)
    requires Replay(c, b) == Some(rs) && ReceiptWellFormed(r) && Appendable(c, rs, r)
    ensures Replay(c, b + LineBytes(r)) == Some(rs + [r]) <==> Clean(c, b, rs) && Replayable(r)
    ensures Clean(c, b, rs) && Replayable(r) ==> Clean(c, b + LineBytes(r), rs + [r])
  {
    hide Lines, Line, Replay, Terminated, Replayable, LineBytes, DecodeLine, DigestMatches;
    var all := rs + [r];
    WholeIsAll(c, b, rs, r);
    LineRoundTrip(r);
    LinesReplay(c, b, rs);
    assert all[|rs|] == r;
    if Clean(c, b, rs) && Replayable(r) {
      AppendTerminates(b, r);
      AppendAddsALine(c, b, rs, r);
    }
  }

  lemma LinesReplay(c: Service, b: bytes, rs: seq<SnapshotRecord>)
    requires Replay(c, b) == Some(rs)
    ensures |rs| <= |Lines(b)| <= |rs| + 1
  {
    hide Lines, Replay, ReplaysTo;
    ReplayExactly(c, b, rs);
    LengthOfReplay(c, Lines(b), rs);
  }

  lemma AppendTerminates(b: bytes, r: SnapshotRecord)
    ensures Terminated(b + LineBytes(r))
  {}

  lemma AppendAddsALine(c: Service, b: bytes, rs: seq<SnapshotRecord>, r: SnapshotRecord)
    requires Replay(c, b) == Some(rs) && Terminated(b) && ReceiptWellFormed(r)
    ensures |Lines(b + LineBytes(r))| == |Lines(b)| + 1
  {
    hide Lines, Line, Replay, Terminated, Tail, Head, PartText, Utf8.Decode, IsBlank;
    LastLineText(c, b, rs);
    CutLines(b, r, |LineBytes(r)|);
    assert LineBytes(r)[..|LineBytes(r)|] == LineBytes(r);
  }

  /** Appending after an unterminated last line fuses with it: the appended
      record is lost, and so is a complete record that only lacked its newline. */
  lemma FusedAppend(c: Service, b: bytes, rs: seq<SnapshotRecord>, r: SnapshotRecord)
    requires Replay(c, b) == Some(rs) && ReceiptWellFormed(r) && !Terminated(b)
    ensures Replay(c, b + LineBytes(r)) == Some(if |Lines(b)| == |rs| && rs != [] then rs[..|rs| - 1] else rs)
  {
    hide Lines, Line, Replay, Terminated, LineBytes;
    WholeIsAll(c, b, rs, r);
  }

  /** A torn line that was kept and then terminated makes the next append fatal
      for every later replay. */
  lemma AppendAfterTornLineIsFatal(c: Service, b: bytes, rs: seq<SnapshotRecord>, r: SnapshotRecord)
    requires Replay(c, b) == Some(rs) && ReceiptWellFormed(r) && Terminated(b) && |Lines(b)| > |rs|
    ensures Replay(c, b + LineBytes(r)) == None
  {
    hide Lines, Line, Replay, Terminated, LineBytes;
    WholeIsAll(c, b, rs, r);
  }
}
