/** What is served once it was answered, in any run: nothing that happens after a
    record is safe can take it away or change it (src/api.rs, src/store.rs). */
module Runs {
  import opened Basics
  import opened Text
  import opened Records
  import opened JournalLines
  import opened Documents
  import opened Journal
  import opened Recovery
  import opened Store
  import opened Reopening
  import opened Ingest
  import opened Archive
  import opened Requests
  import Timestamps

  // ---- Anchored records -----------------------------------------------------

  /** The journal starts with a clean part that holds these records, and so does
      memory. */
  ghost predicate AnchoredAt(w: World, s: System, p: bytes, rs: seq<SnapshotRecord>) {
    s.disk.journal.Some? && p <= s.disk.journal.value && Clean(w.service, p, rs) && rs <= s.records
  }

  lemma AnchoredYields(w: World, s: System, p: bytes, rs: seq<SnapshotRecord>)
    requires AnchoredAt(w, s, p, rs)
    ensures Survivors(w.service, s.disk).Some? ==> rs <= Survivors(w.service, s.disk).value
  {
    hide Clean, Replay;
    var b := s.disk.journal.value;
    assert b == p + b[|p|..];
    if Replay(w.service, b).Some? { CleanRecordsStay(w.service, p, rs, b[|p|..], Replay(w.service, b).value); }
  }

  lemma StillAnchored(w: World, s: System, n: System, p: bytes, rs: seq<SnapshotRecord>)
    requires AnchoredAt(w, s, p, rs) && JournalGrew(s.disk, n.disk) && rs <= n.records
    ensures AnchoredAt(w, n, p, rs)
  {
    hide Clean;
  }

  lemma AnchoredRestart(w: World, s: System, p: bytes, rs: seq<SnapshotRecord>)
    requires w.paths.journaled && AnchoredAt(w, s, p, rs)
    ensures rs <= AfterRestart(w, s).records
  {
    hide Clean, Survivors, Open;
    AnchoredYields(w, s, p, rs);
    OpenYieldsSurvivors(w.service, w.paths, s.disk);
  }

  lemma RestartStep(w: World, s: System)
    requires Step(w, s, Restart).Some?
    ensures Step(w, s, Restart) == Some(AfterRestart(w, s))
  {
    hide AfterRestart;
  }

  /** No step whatever loosens them. */
  lemma AnchoredStep(w: World, s: System, e: Event, p: bytes, rs: seq<SnapshotRecord>)
    requires w.paths.journaled && AnchoredAt(w, s, p, rs) && Step(w, s, e).Some?
    ensures AnchoredAt(w, Step(w, s, e).value, p, rs)
  {
    var n := Step(w, s, e).value;
    assert rs <= s.records;
    hide Step, AfterRestart, AnchoredAt, JournalGrew;
    if e.Restart? {
      AnchoredRestart(w, s, p, rs);
      RestartStep(w, s);
    } else {
      StepInMemory(w, s, e);
    }
    StepGrowsJournal(w, s, e);
    StillAnchored(w, s, n, p, rs);
  }

  lemma {:induction false} AnchoredRun(w: World, s: System, es: seq<Event>, p: bytes, rs: seq<SnapshotRecord>)
    requires w.paths.journaled && AnchoredAt(w, s, p, rs) && Run(w, s, es).Some?
    ensures AnchoredAt(w, Run(w, s, es).value, p, rs)
    decreases |es|
  {
    hide Step, AnchoredAt;
    if es == [] {
    } else {
      AnchoredStep(w, s, es[0], p, rs);
      AnchoredRun(w, Step(w, s, es[0]).value, es[1..], p, rs);
    }
  }

  /** Where memory and disk agree, all records are anchored but an exposed last one. */
  lemma SyncedIsAnchored(w: World, s: System) returns (p: bytes)
    requires Synced(w, s) && s.disk.journal.Some?
    ensures AnchoredAt(w, s, p, Secured(s.disk.journal.value, s.records))
  {
    hide Clean, Replay;
    p := SecuredPrefix(w.service, s.disk.journal.value, s.records);
  }

  // ---- Re-serving -----------------------------------------------------------

  /** What a first match finds, it finds in any extension. */
  lemma {:induction false} FindExtends(rs: seq<SnapshotRecord>, all: seq<SnapshotRecord>, id: string)
    requires rs <= all && Find(rs, id).Some?
    ensures Find(all, id) == Find(rs, id)
  {
    if rs[0].snapshotId == id {
    } else {
      FindExtends(rs[1..], all[1..], id);
    }
  }

  lemma GetExtends(c: Service, rs: seq<SnapshotRecord>, all: seq<SnapshotRecord>, path: string)
    requires rs <= all && GetResponse(c, rs, path).Found?
    ensures GetResponse(c, all, path) == GetResponse(c, rs, path)
  {
    hide Find, BodyBytes;
    FindExtends(rs, all, Trim(path));
  }

  /** The journal ends in a complete record that lacks its newline. */
  predicate Exposed(s: System) {
    s.disk.journal.Some? && ExposedTail(s.disk.journal.value, s.records)
  }

  /** Where memory and disk agree and no record is exposed, whatever a GET answers
      with it answers with forever: in any run at all, across restarts, crashes and
      appends to any journal. */
  lemma GetIsImmutable(w: World, s: System, es: seq<Event>, path: string)
    requires w.paths.journaled && Synced(w, s) && s.disk.journal.Some? && !Exposed(s) && Run(w, s, es).Some?
    requires GetResponse(w.service, s.records, path).Found?
    ensures GetResponse(w.service, Run(w, s, es).value.records, path) == GetResponse(w.service, s.records, path)
  {
    hide Run, Synced, GetResponse, Clean, ExposedTail;
    var p := SyncedIsAnchored(w, s);
    AnchoredRun(w, s, es, p, s.records);
    GetExtends(w.service, s.records, Run(w, s, es).value.records, path);
  }

  /** Between two restarts the same holds of any state, with a journal or from
      memory alone. */
  lemma GetIsImmutableInMemory(w: World, s: System, es: seq<Event>, path: string)
    requires Run(w, s, es).Some? && forall e <- es :: !e.Restart?
    requires GetResponse(w.service, s.records, path).Found?
    ensures GetResponse(w.service, Run(w, s, es).value.records, path) == GetResponse(w.service, s.records, path)
  {
    hide Run, GetResponse;
    RunInMemory(w, s, es);
    GetExtends(w.service, s.records, Run(w, s, es).value.records, path);
  }

  /** What an answered append needs to be durable, checkable before it: the journal
      holds exactly the records of memory, ends in a newline and has no torn line,
      and the new record will replay. */
  predicate MayAppend(w: World, s: System, r: SnapshotRecord) {
    s.disk.journal.Some? && Clean(w.service, s.disk.journal.value, s.records) && Replayable(r)
  }

  /** End to end, in any run from an empty archive: once a POST whose append was
      durable is answered with an id and a body, every later GET of that id is
      answered with exactly that body, whatever happens before and after. */
  lemma PostedBodyIsServedForever(w: World, clock: i64, before: seq<Event>, s: System, t: nat, after: seq<Event>,
      n: System)
    requires w.paths.journaled && Run(w, Initial(clock), before) == Some(s)
    requires CanAppend(w, s, t) && MayAppend(w, s, s.tasks[t].record)
    requires Run(w, AfterAppend(w, s, t), after) == Some(n)
    ensures var posted := ResponseTo(w, s, Append(t));
            && posted.Some? && posted.value.CreatedBody?
            && Step(w, s, Append(t)) == Some(AfterAppend(w, s, t))
            && GetResponse(w.service, n.records, posted.value.id)
               == Found(posted.value.asOf, w.service.sha256(posted.value.body), posted.value.body)
  {
    hide Run, Sound, GetResponse, Clean, BodyBytes, SnapshotIdOf, AppendError, Created, WellShaped, ReceiptWellFormed;
    hide Replay, Authentic, Recorded, LineBytes, Replayable;
    InitialIsSound(w, clock);
    RunKeepsSound(w, Initial(clock), before);
    SealedFacts(w, s, t);
    AppendIsRecorded(w, s, t);
    var a, r := AfterAppend(w, s, t), s.tasks[t].record;
    AppendIsAnchored(w, s, t);
    AnchoredRun(w, a, after, a.disk.journal.value, a.records);
    AppendedIsServed(w, s, t);
    GetExtends(w.service, a.records, n.records, r.snapshotId);
  }

  lemma AppendIsAnchored(w: World, s: System, t: nat)
    requires Sound(w, s) && CanAppend(w, s, t) && MayAppend(w, s, s.tasks[t].record)
    ensures var a := AfterAppend(w, s, t); a.disk.journal.Some? && AnchoredAt(w, a, a.disk.journal.value, a.records)
  {
    hide Sound, BodyBytes, AppendError, Created, WellShaped, ReceiptWellFormed, DigestMatches, Replay, Authentic;
    hide Recorded, LineBytes, Replayable, Lines, Terminated;
    SealedFacts(w, s, t);
    AppendIsRecorded(w, s, t);
    AppendIsDurable(w.service, s.disk.journal.value, s.records, s.tasks[t].record);
  }

  lemma AppendedIsServed(w: World, s: System, t: nat)
    requires Sound(w, s) && CanAppend(w, s, t)
    ensures var r := s.tasks[t].record;
            && CreateResponse(w.service, s.records, r)
              == CreatedBody(r.snapshotId, r.notarizedAt, BodyBytes(w.service, r))
            && GetResponse(w.service, AfterAppend(w, s, t).records, r.snapshotId)
               == Found(r.notarizedAt, w.service.sha256(BodyBytes(w.service, r)), BodyBytes(w.service, r))
  {
    hide Sound, BodyBytes, AppendError, Created, WellShaped, ReceiptWellFormed, GetResponse, SnapshotIdOf, Numbered;
    hide Recorded, AfterAppend;
    SealedFacts(w, s, t);
    AppendIsRecorded(w, s, t);
    CreatedId(w, s.tasks[t].record);
    GetServesId(w.service, AfterAppend(w, s, t).records, s.tasks[t].record.seqNo);
  }

  /** Every record of every run was signed by the notary, and its document verifies
      on its own while its instant prints. */
  lemma EveryDocumentVerifies(w: World, clock: i64, es: seq<Event>, r: SnapshotRecord)
    requires w.paths.journaled && SignaturesVerify(w.service) && Run(w, Initial(clock), es).Some?
    requires r in Run(w, Initial(clock), es).value.records && Timestamps.Printable(r.notarizedAt)
    ensures VerifiesAlone(w.service, w.notary, ToDocument(w.service, r))
  {
    hide Run, VerifiesAlone, ToDocument, Created, Recorded, Serialized, Numbered, Timestamps.Printable;
    InitialIsSound(w, clock);
    RunKeepsSound(w, Initial(clock), es);
    CreatedVerifies(w.service, w.notary, r);
  }

  // ---- When an answered record survives -------------------------------------

  /** The service stops and opens its store again. */
  function StoppedAndRestarted(w: World, s: System): System {
    AfterRestart(w, Down(s, s.disk))
  }

  /** In any state of any run, an answered append survives a stop and a restart
      exactly when it was durable. */
  lemma AnsweredAppendSurvivesIff(w: World, s: System, t: nat)
    requires Sound(w, s) && CanAppend(w, s, t)
    ensures var n := StoppedAndRestarted(w, AfterAppend(w, s, t));
            n.up && n.records == s.records + [s.tasks[t].record] <==> MayAppend(w, s, s.tasks[t].record)
  {
    hide Sound, Created, WellShaped, ReceiptWellFormed, DigestMatches, Replayable, AppendError, Replay, Clean;
    hide LineBytes;
    hide Authentic, Genuine, Materialized, Open, BodyBytes, Terminated;
    SealedFacts(w, s, t);
    AppendIsRecorded(w, s, t);
    DurableIff(w, s, t);
    var a := AfterAppend(w, s, t);
    OpenYieldsSurvivors(w.service, w.paths, a.disk);
    if Survivors(w.service, a.disk) == Some(a.records) { OpensInPlace(w.service, w.paths, a.disk, a.records); }
  }

  /** On the journal's side: it then yields the records of memory. */
  lemma DurableIff(w: World, s: System, t: nat)
    requires Sound(w, s) && CanAppend(w, s, t)
    ensures var r := s.tasks[t].record;
            s.disk.journal.Some? &&
            (Replay(w.service, s.disk.journal.value + LineBytes(r)) == Some(s.records + [r]) <==> MayAppend(w, s, r))
  {
    hide Created, WellShaped, ReceiptWellFormed, DigestMatches, Replayable, AppendError, Replay, LineBytes, Lines;
    hide Authentic, Genuine, Materialized, Terminated, Serialized, InsideCharacter, WholeLine;
    SealedFacts(w, s, t);
    var b, r := s.disk.journal.value, s.tasks[t].record;
    if Replay(w.service, b) == None {
      NothingRevives(w.service, b, LineBytes(r));
    } else {
      var rs := Replay(w.service, b).value;
      assert Survivors(w.service, s.disk) == Some(rs);
      if rs == s.records {
        AppendIsDurable(w.service, b, rs, r);
      } else {
        WholeAppendAdds(w.service, b, rs, r);
        assert |rs| < |s.records| && |s.records + [r]| == |s.records| + 1;
      }
    }
  }
}
