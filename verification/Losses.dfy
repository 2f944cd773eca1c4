/** Runs from an empty archive that end badly: a posted snapshot that is gone after
    the next start, a store that never opens again, a crash inside a character,
    and a catalogue put out of order by a clock that steps back. */
module Losses {
  import opened Basics
  import opened Records
  import opened JournalLines
  import opened Journal
  import opened Recovery
  import opened Store
  import opened Reopening
  import opened Ingest
  import opened Archive
  import opened Requests
  import opened Runs
  import opened Catalogue
  import opened Text
  import opened Json
  import Utf8

  // ---- Building blocks ------------------------------------------------------

  /** A journal that replays to nothing opens to nothing. */
  lemma OpensToNothing(w: World, s: System)
    requires w.paths.journaled && !s.up && s.tasks == map[] && s.holder == None && s.disk.journal.Some?
    ensures Replay(w.service, s.disk.journal.value) == Some([]) ==> AfterRestart(w, s) == Idle([], s.disk, s.clock)
    ensures Replay(w.service, s.disk.journal.value) == None ==> AfterRestart(w, s) == s
  {
    hide Replay;
  }

  /** The first byte of a line is its opening brace. */
  lemma FirstByte(r: SnapshotRecord)
    requires ReceiptWellFormed(r)
    ensures |LineBytes(r)| > 2 && !InsideCharacter(r, 1) && !Terminated(LineBytes(r)[..1])
  {
    hide Line, IsBlank;
    LineHasNoNewline(r);
    LineStartsWithBrace(r);
    LineShape(r);
    var s := Line(r);
    assert Utf8.EncodeChar('{') == [123];
    assert Utf8.Encode(s) == [123] + Utf8.Encode(s[1..]);
    Utf8.EncodedIsEmpty(s[1..]);
    assert Utf8.CharBoundary(s[1..], 0);
    assert LineBytes(r)[..1] == [123];
  }

  /** A crash after the first byte of a journal's first line. */
  lemma CrashesAtFirstByte(w: World, clock: i64, req: Request)
    requires Signing(w)
    ensures var s, r := Idle([], Disk(Some([]), map[]), clock), SealedFor(w, req, 0, clock);
            && r.Some? && ReceiptWellFormed(r.value)
            && Run(w, s, SealEvents(0, req, NO_LOG) + [Crash(0, DuringLine(1)), Restart])
               == Some(Idle([], Disk(Some(LineBytes(r.value)[..1]), map[]), clock))
            && Replay(w.service, LineBytes(r.value)[..1]) == Some([])
  {
    hide SnapshotIdOf, Notarized, SealEvents, DigestMatches, Created, BodyBytes, ReceiptWellFormed, LineBytes, Replay;
    hide InsideCharacter, Terminated, AfterRestart;
    var s := Idle([], Disk(Some([]), map[]), clock);
    SealingWorks(w, req, 0, clock);
    SealsAlone(w, s, 0, req, NO_LOG);
    var r := SealedFor(w, req, 0, clock).value;
    FirstByte(r);
    var x := LineBytes(r)[..1];
    PartOnEmptyJournal(w.service, r, 1);
    var sealed := SealedBy(s, 0, r);
    var c := Down(sealed, Disk(Some(x), map[]));
    assert [] + x == x;
    assert AfterCrash(w, sealed, 0, DuringLine(1)) == c;
    RunAppend(w, s, SealEvents(0, req, NO_LOG), [Crash(0, DuringLine(1)), Restart]);
    RunStep(w, sealed, Crash(0, DuringLine(1)), [Restart] + []);
    RunStep(w, c, Restart, []);
    assert [Crash(0, DuringLine(1))] + ([Restart] + []) == [Crash(0, DuringLine(1)), Restart];
    OpensToNothing(w, c);
    RunNothing(w, AfterRestart(w, c));
  }

  /** Part of a first line: torn, or unreadable inside a character. */
  lemma PartOnEmptyJournal(c: Service, r: SnapshotRecord, k: nat)
    requires ReceiptWellFormed(r) && 0 < k && k + 1 < |LineBytes(r)|
    ensures Replay(c, LineBytes(r)[..k]) == if InsideCharacter(r, k) then None else Some([])
  {
    hide Replay, LineBytes, WholeLine, InsideCharacter;
    ReplayNothing(c);
    CrashDuringAppend(c, [], [], r, k);
    NoLines();
    assert [] + LineBytes(r)[..k] == LineBytes(r)[..k];
  }

  // ---- A posted snapshot that is lost ---------------------------------------

  /** A first request that crashes after one byte of its line, and a second one
      ready to append. */
  function BeforeTheLoss(first: Request, second: Request): seq<Event> {
    [Restart] + ((SealEvents(0, first, NO_LOG) + [Crash(0, DuringLine(1)), Restart]) + SealEvents(0, second, NO_LOG))
  }

  /** The second request is answered with an id and a body; after a clean stop and
      a restart the service is up without it, and a GET of its id finds nothing. */
  lemma PostedSnapshotIsLost(w: World, clock: i64, first: Request, second: Request) returns (s: System, n: System)
    requires Signing(w)
    ensures Run(w, Initial(clock), BeforeTheLoss(first, second)) == Some(s)
    ensures var posted := ResponseTo(w, s, Append(0));
            posted.Some? && posted.value.CreatedBody? && posted.value.id == SnapshotIdOf(0)
    ensures Run(w, s, [Append(0)] + [Stop, Restart]) == Some(n) && n.up && n.records == []
    ensures GetResponse(w.service, n.records, SnapshotIdOf(0)) == NotFound
    ensures n == Idle([], n.disk, clock) && Condemned(w, n)
  {
    hide SnapshotIdOf, Notarized, SealEvents, DigestMatches, Created, BodyBytes, ReceiptWellFormed, LineBytes, Replay;
    hide Terminated, AfterRestart;
    hide Lines, Run, ResponseTo, Step;
    var i := Idle([], Disk(Some([]), map[]), clock);
    Opens(w, clock);
    CrashesAtFirstByte(w, clock, first);
    SealingWorks(w, second, 0, clock);
    var r, q := SealedFor(w, first, 0, clock).value, SealedFor(w, second, 0, clock).value;
    FirstByte(r);
    var x := LineBytes(r)[..1];
    var j := Idle([], Disk(Some(x), map[]), clock);
    Posts(w, [], Disk(Some(x), map[]), clock, second);
    RunAppend(w, i, SealEvents(0, first, NO_LOG) + [Crash(0, DuringLine(1)), Restart], SealEvents(0, second, NO_LOG));
    RunAppend(w, Initial(clock), [Restart], (SealEvents(0, first, NO_LOG) + [Crash(0, DuringLine(1)), Restart])
      + SealEvents(0, second, NO_LOG));
    s := SealedBy(j, 0, q);
    var d := Appended(w.service, w.paths, Disk(Some(x), map[]), q);
    var a := Idle([] + [q], d, clock);
    RunStep(w, s, Append(0), [Stop, Restart]);
    StopsAndStarts(w, Idle([] + [q], d, clock));
    FusedAppend(w.service, x, [], q);
    n := AfterRestart(w, Down(a, d));
    OpensToNothing(w, Down(a, d));
    GetServesId(w.service, [], 0);
    AppendTerminates(x, q);
    TornLineStays(w.service, x + LineBytes(q));
  }

  /** The journal ends in a torn line that has its newline. */
  ghost predicate Condemned(w: World, s: System) {
    && s.disk.journal.Some? && Replay(w.service, s.disk.journal.value) == Some([])
    && Terminated(s.disk.journal.value) && |Lines(s.disk.journal.value)| > 0
  }

  lemma TornLineStays(c: Service, b: bytes)
    requires b != []
    ensures |Lines(b)| > 0
  {
    LinesUnfold(b);
  }

  // ---- A store that never opens again ---------------------------------------

  /** The same run goes on: the next request is answered too, under the id the lost
      one had, and after it the store never opens again, whatever happens. */
  lemma StoreIsLost(w: World, clock: i64, n: System, third: Request, after: seq<Event>) returns (m: System)
    requires Signing(w) && n == Idle([], n.disk, clock) && Condemned(w, n)
    ensures var sealed := Run(w, n, SealEvents(0, third, NO_LOG));
            && sealed.Some?
            && var posted := ResponseTo(w, sealed.value, Append(0));
               posted.Some? && posted.value.CreatedBody? && posted.value.id == SnapshotIdOf(0)
    ensures Run(w, n, Post(third) + [Stop, Restart]) == Some(m) && !m.up
    ensures Run(w, m, after).Some? ==> !Run(w, m, after).value.up
  {
    hide SnapshotIdOf, Notarized, SealEvents, DigestMatches, Created, BodyBytes, ReceiptWellFormed, LineBytes, Replay;
    hide Terminated, AfterRestart;
    hide Lines, Run, ResponseTo, Step;
    Posts(w, [], n.disk, clock, third);
    SealingWorks(w, third, 0, clock);
    var q := SealedFor(w, third, 0, clock).value;
    var d := Appended(w.service, w.paths, n.disk, q);
    RunAppend(w, n, Post(third), [Stop, Restart]);
    StopsAndStarts(w, Idle([] + [q], d, clock));
    AppendAfterTornLineIsFatal(w.service, n.disk.journal.value, [], q);
    m := Down(Idle([] + [q], d, clock), d);
    OpensToNothing(w, m);
    StaysDown(w, m, after);
  }

  /** A service whose journal does not replay stays down. */
  lemma {:induction false} StaysDown(w: World, s: System, es: seq<Event>)
    requires w.paths.journaled && !s.up && s.disk.journal.Some? && Replay(w.service, s.disk.journal.value) == None
    ensures Run(w, s, es).Some? ==> !Run(w, s, es).value.up
    decreases |es|
  {
    hide Replay;
    if es == [] {
    } else if Step(w, s, es[0]).Some? {
      StaysDown(w, Step(w, s, es[0]).value, es[1..]);
    }
  }

  // ---- A crash inside a character -------------------------------------------

  const ACCENTED := "urn:unidpp:passport:caf\U{E9}"

  /** One request with an accented passport id and a crash inside that letter: the
      service does not come up again. */
  lemma CutCharacterIsRefused(w: World, clock: i64, req: Request) returns (k: nat)
    requires Signing(w) && req.passportId == ACCENTED
    ensures var m := Run(w, Initial(clock), [Restart]
        + (SealEvents(0, req, NO_LOG) + [Crash(0, DuringLine(k)), Restart]));
            m.Some? && !m.value.up
  {
    hide SnapshotIdOf, Notarized, SealEvents, DigestMatches, Created, BodyBytes, ReceiptWellFormed, LineBytes, Replay;
    hide InsideCharacter, AfterRestart;
    var s := Idle([], Disk(Some([]), map[]), clock);
    Opens(w, clock);
    SealingWorks(w, req, 0, clock);
    SealsAlone(w, s, 0, req, NO_LOG);
    var r := SealedFor(w, req, 0, clock).value;
    assert ACCENTED[|ACCENTED| - 1] == '\U{E9}';
    k := AccentIsCut(r, '\U{E9}');
    var x := LineBytes(r)[..k];
    PartOnEmptyJournal(w.service, r, k);
    var sealed := SealedBy(s, 0, r);
    var c := Down(sealed, Disk(Some(x), map[]));
    assert [] + x == x;
    assert AfterCrash(w, sealed, 0, DuringLine(k)) == c;
    RunAppend(w, Initial(clock), [Restart], SealEvents(0, req, NO_LOG) + [Crash(0, DuringLine(k)), Restart]);
    RunAppend(w, s, SealEvents(0, req, NO_LOG), [Crash(0, DuringLine(k)), Restart]);
    RunStep(w, sealed, Crash(0, DuringLine(k)), [Restart] + []);
    RunStep(w, c, Restart, []);
    assert [Crash(0, DuringLine(k))] + ([Restart] + []) == [Crash(0, DuringLine(k)), Restart];
    OpensToNothing(w, c);
    RunNothing(w, AfterRestart(w, c));
  }

  /** A letter outside ASCII in the passport id is in the line, and can be cut. */
  lemma AccentIsCut(r: SnapshotRecord, accent: char) returns (k: nat)
    requires ReceiptWellFormed(r) && accent in r.passportId && accent as int >= 0x80
    ensures 0 < k && k + 1 < |LineBytes(r)| && InsideCharacter(r, k)
  {
    hide Line, Utf8.EncodeChar;
    PassportIsPrinted(r, accent);
    var s := Line(r);
    var j :| 0 <= j < |s| && s[j] == accent;
    k := |Utf8.Encode(s[..j])| + 1;
    CutInside(s, j);
  }

  /** One byte into a character of more bytes is no boundary. */
  lemma {:induction false} CutInside(s: string, j: nat)
    requires j < |s| && s[j] as int >= 0x80
    ensures var k := |Utf8.Encode(s[..j])| + 1;
            k < |Utf8.Encode(s)| && !Utf8.CharBoundary(s, k)
  {
    if j == 0 {
      assert s[..0] == "";
      assert |Utf8.EncodeChar(s[0])| >= 2;
    } else {
      assert s[..j][1..] == s[1..][..j - 1] && s[..j][0] == s[0];
      hide Utf8.EncodeChar;
      CutInside(s[1..], j - 1);
    }
  }

  lemma {:induction false} EscapedKeeps(s: string, c: char)
    requires c in s && c as int >= 0x80
    ensures c in Escape(s)
  {
    if s == "" {
    } else if s[0] == c {
      assert EscapeChar(c) == [c];
      assert Escape(s)[0] == c;
    } else {
      assert s == [s[0]] + s[1..];
      EscapedKeeps(s[1..], c);
    }
  }

  lemma {:induction false} FieldIsPrinted(fields: seq<Field>, i: nat, level: nat, c: char)
    requires i < |fields| && c in Print(fields[i].value, Compact, level)
    ensures c in PrintFields(fields, Compact, level)
    decreases |fields|
  {
    hide Print, Quote;
    if i == 0 {
    } else {
      FieldIsPrinted(fields[1..], i - 1, level, c);
    }
  }

  lemma ObjectIsPrinted(fields: seq<Field>, i: nat, c: char)
    requires i < |fields| && c in Print(fields[i].value, Compact, 1)
    ensures c in Print(Obj(fields), Compact, 0)
  {
    FieldIsPrinted(fields, i, 1, c);
    hide PrintFields;
  }

  lemma TextIsPrinted(s: string, c: char)
    requires c in s && c as int >= 0x80
    ensures c in Print(Str(s), Compact, 1)
  {
    EscapedKeeps(s, c);
    hide Escape;
  }

  lemma PassportIsPrinted(r: SnapshotRecord, c: char)
    requires c in r.passportId && c as int >= 0x80
    ensures c in Line(r)
  {
    hide RecordMembers, PrintFields, Object, Get;
    RecordLookup(r);
    ObjectIsObj(RecordMembers(r));
    var v := ToJournal(r);
    var i := GetIsField(v.fields, "passport_id");
    TextIsPrinted(r.passportId, c);
    ObjectIsPrinted(v.fields, i, c);
    assert v == Obj(v.fields);
  }

  // ---- An exposed record ----------------------------------------------------

  /** Whatever a GET finds now it finds in every run. */
  ghost predicate AnswersAreFinal(w: World, s: System) {
    forall es, path :: Run(w, s, es).Some? && GetResponse(w.service, s.records, path).Found? ==>
      GetResponse(w.service, Run(w, s, es).value.records, path) == GetResponse(w.service, s.records, path)
  }

  /** That is so exactly when the journal does not end in a record without its
      newline: one post and a clean stop cost such a record. */
  lemma AnswersAreFinalIff(w: World, s: System, req: Request)
    requires Ready(w, s)
    ensures AnswersAreFinal(w, s) <==> !Exposed(s)
  {
    ReadyFacts(w, s);
    hide Run, Exposed, GetResponse, Ready, Synced, LosingPost;
    if Exposed(s) {
      ExposedIsLost(w, s, req);
      LastIsServed(w, s, s.records[..|s.records| - 1]);
    } else {
      forall es, path | Run(w, s, es).Some? && GetResponse(w.service, s.records, path).Found?
        ensures GetResponse(w.service, Run(w, s, es).value.records, path) == GetResponse(w.service, s.records, path)
      {
        GetIsImmutable(w, s, es, path);
      }
    }
  }

  lemma LastIsServed(w: World, s: System, kept: seq<SnapshotRecord>)
    requires Sound(w, s) && s.records != [] && |s.records| < U64_LIMIT && kept == s.records[..|s.records| - 1]
    ensures var path := SnapshotIdOf(|kept|);
            GetResponse(w.service, s.records, path).Found? && GetResponse(w.service, kept, path) == NotFound
  {
    hide SnapshotIdOf, GetResponse, Serialized, Recorded, Created;
    assert Numbered(kept) by { NumberedFirst(s.records, kept); }
    GetServesId(w.service, s.records, |kept|);
    GetServesId(w.service, kept, |kept|);
  }

  lemma NumberedFirst(rs: seq<SnapshotRecord>, kept: seq<SnapshotRecord>)
    requires Numbered(rs) && kept <= rs
    ensures Numbered(kept)
  {
    hide SnapshotIdOf;
    forall i | 0 <= i < |kept| ensures kept[i].seqNo == i && kept[i].snapshotId == SnapshotIdOf(kept[i].seqNo) {
      assert rs[i].seqNo == i && rs[i] == kept[i];
    }
  }

  // ---- A clock that steps back ----------------------------------------------

  /** Two posts with the clock set back between them: the catalogue as of the
      earlier instant holds the second snapshot and not the first. */
  lemma SteppedBackCatalogue(w: World, clock: i64, req: Request) returns (n: System)
    requires Signing(w) && clock > -0x8000_0000_0000_0000
    ensures Run(w, Initial(clock), [Restart] + (Post(req) + ([Tick(clock - 1)] + Post(req)))) == Some(n)
    ensures n.up && |n.records| == 2 && n.records[0].notarizedAt == clock
    ensures Listed(n.records, None, Some(clock - 1)) == [n.records[1]]
  {
    hide SnapshotIdOf, Notarized, Post, DigestMatches, Created, BodyBytes, ReceiptWellFormed, Appended, Run;
    var i := Idle([], Disk(Some([]), map[]), clock);
    Opens(w, clock);
    Posts(w, [], i.disk, clock, req);
    SealingWorks(w, req, 0, clock);
    SealingWorks(w, req, 1, clock - 1);
    var r, q := SealedFor(w, req, 0, clock).value, SealedFor(w, req, 1, clock - 1).value;
    var d := Appended(w.service, w.paths, i.disk, r);
    assert d.journal.Some? by { AppendedJournal(w, i.disk, r); }
    var a := Idle([] + [r], d, clock);
    Posts(w, [] + [r], d, clock - 1, req);
    RunAppend(w, Initial(clock), [Restart], Post(req) + ([Tick(clock - 1)] + Post(req)));
    RunAppend(w, i, Post(req), [Tick(clock - 1)] + Post(req));
    RunStep(w, a, Tick(clock - 1), Post(req));
    n := Idle([] + [r] + [q], Appended(w.service, w.paths, d, q), clock - 1);
    SecondIsListed(r, q, clock - 1);
    assert [] + [r] == [r];
  }

  lemma SecondIsListed(r: SnapshotRecord, q: SnapshotRecord, at: i64)
    requires q.notarizedAt <= at < r.notarizedAt
    ensures Listed([r] + [q], None, Some(at)) == [q]
  {
    ListedCons(r, [q], None, Some(at));
    ListedCons(q, [], None, Some(at));
    assert [q] + [] == [q];
  }

  lemma AppendedJournal(w: World, d: Disk, r: SnapshotRecord)
    requires d.journal.Some?
    ensures Appended(w.service, w.paths, d, r).journal.Some?
  {}
}
