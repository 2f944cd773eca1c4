/** When the service comes up again, and with what: after a stop inside an append,
    inside an open, and over whole runs (src/store.rs). */
module Restarts {
  import opened Basics
  import opened Records
  import opened JournalLines
  import opened Journal
  import opened Recovery
  import opened Store
  import opened Reopening
  import opened Ingest
  import opened Archive
  import opened Requests
  import opened Runs
  import Utf8

  // ---- After a stop inside an append ----------------------------------------

  /** From any state of any run: the restart succeeds exactly when the journal read
      before and `Recovered` names the records; it then has those, with every file
      in place. */
  lemma RestartAfterCrash(w: World, s: System, t: nat, cut: Cut)
    requires Sound(w, s) && CanCrash(w, s, t, cut)
    ensures s.disk.journal.Some? && w.paths.journaled
    ensures var n, before := AfterRestart(w, AfterCrash(w, s, t, cut)), Replay(w.service, s.disk.journal.value);
            if before.None? then !n.up
            else
              var recovered := Recovered(w.service, w.paths, s.disk, before.value, s.tasks[t].record, cut);
              && (n.up <==> recovered.Some?)
              && (n.up ==> n.records == recovered.value)
              && (n.up && w.paths.filed ==> Materialized(w.service, n.disk.files, n.records))
  {
    hide Created, DigestMatches, Replay, WellShaped, Materialized, BodyBytes, LineBytes, Open, ReceiptWellFormed;
    hide Serialized, AppendError, Recovered, DistinctIds, CutAppend, Possible, Numbered, Replayable;
    SealedFacts(w, s, t);
    var r := s.tasks[t].record;
    var before := Replay(w.service, s.disk.journal.value);
    if before.None? {
      CrashYields(w, s, t, cut);
      OpenYieldsSurvivors(w.service, w.paths, AfterCrash(w, s, t, cut).disk);
    } else {
      assert Survivors(w.service, s.disk) == before;
      FirstRecords(w, s, r, before.value);
      CrashRecovery(w.service, w.paths, s.disk, before.value, r, cut);
    }
  }

  /** What holds of the records of memory holds of the first of them. */
  lemma FirstRecords(w: World, s: System, r: SnapshotRecord, rs: seq<SnapshotRecord>)
    requires Authentic(w, s.records) && Created(w.service, w.notary, r) && r.seqNo == |s.records| && rs <= s.records
    ensures DistinctIds(rs + [r]) && r !in rs
    ensures Materialized(w.service, s.disk.files, s.records) ==> Materialized(w.service, s.disk.files, rs)
  {
    hide Created, Numbered, BodyBytes;
    IdsAreFresh(w, s.records, r);
    assert forall q <- rs :: q in s.records;
    assert forall q <- rs + [r] :: q in s.records + [r];
  }

  /** On a clean journal: the restart succeeds exactly when the line was not cut
      inside a character and, if the line is whole and replays, its file is
      absent or whole. It adds the interrupted record exactly in that last case. */
  lemma RestartAfterCrashOnCleanJournal(w: World, s: System, t: nat, cut: Cut)
    requires Sound(w, s) && CanCrash(w, s, t, cut)
    requires s.disk.journal.Some? && Clean(w.service, s.disk.journal.value, s.records)
    ensures var n, r := AfterRestart(w, AfterCrash(w, s, t, cut)), s.tasks[t].record;
            var whole := Written(r, cut) + 1 >= |LineBytes(r)| && Replayable(r);
            && (n.up <==> !InsideCharacter(r, Written(r, cut))
                          && (whole && w.paths.filed ==>
                                !FileContradicts(w.service, AfterCrash(w, s, t, cut).disk.files, r)))
            && (n.up ==> n.records == if whole then s.records + [r] else s.records)
  {
    hide Created, DigestMatches, Replay, WellShaped, Replayable, BodyBytes, LineBytes, ReceiptWellFormed, AppendError;
    hide Sound, CutAppend, Possible, Utf8.CharBoundary, Line, FileContradicts, WholeLine, Lines, Terminated;
    hide AfterRestart;
    RestartAfterCrash(w, s, t, cut);
    SealedFacts(w, s, t);
    var r := s.tasks[t].record;
    ShapedWholeLine(w.service, s.records, r);
    LineBytesNotEmpty(r);
    assert |s.records + [r]| == |s.records| + 1;
  }

  lemma LineBytesNotEmpty(r: SnapshotRecord)
    requires ReceiptWellFormed(r)
    ensures |LineBytes(r)| >= 2
  {
    hide Line, Utf8.Encode;
    LineHasNoNewline(r);
  }

  /** A stop inside an append that the next open gets over: it wrote nothing; or it
      did not end inside a character, the journal was clean or ended in a torn line
      without its newline, and a surviving record's file is absent or whole. */
  predicate CarefulCrash(w: World, s: System, r: SnapshotRecord, cut: Cut)
    requires w.paths.journaled && s.disk.journal.Some? && Possible(w.service, w.paths, r, cut)
  {
    var b, k := s.disk.journal.value, Written(r, cut);
    k == 0 ||
    (&& !InsideCharacter(r, k)
     && (Terminated(b) <==> |Lines(b)| == |s.records|)
     && (Terminated(b) && k + 1 >= |LineBytes(r)| && Replayable(r) && w.paths.filed ==>
           !FileContradicts(w.service, CutAppend(w.service, w.paths, s.disk, r, cut).files, r)))
  }

  /** Exactly then the restart succeeds with every record of memory. */
  lemma CrashKeepsAllIff(w: World, s: System, t: nat, cut: Cut)
    requires Sound(w, s) && Synced(w, s) && CanCrash(w, s, t, cut)
    ensures w.paths.journaled && s.disk.journal.Some?
    ensures var n := AfterRestart(w, AfterCrash(w, s, t, cut));
            n.up && s.records <= n.records <==> CarefulCrash(w, s, s.tasks[t].record, cut)
  {
    hide Created, DigestMatches, Replay, WellShaped, Replayable, BodyBytes, LineBytes, ReceiptWellFormed, AppendError;
    hide Sound, CutAppend, Possible, InsideCharacter, FileContradicts, WholeLine, Lines, Terminated, AfterRestart;
    SealedFacts(w, s, t);
    RestartAfterCrash(w, s, t, cut);
    var b, r := s.disk.journal.value, s.tasks[t].record;
    var rs := s.records;
    var recovered := Recovered(w.service, w.paths, s.disk, rs, r, cut);
    LinesReplay(w.service, b, rs);
    ShapedWholeLine(w.service, rs, r);
    LineBytesNotEmpty(r);
    assert |rs + [r]| == |rs| + 1;
    if ExposedTail(b, rs) {
      var p := SecuredPrefix(w.service, b, rs);
      assert !(rs <= rs[..|rs| - 1]);
    }
  }

  /** The weaker question, whether a restart that succeeds has every record of
      memory: no, exactly when the append wrote behind an exposed record and did
      not stop inside a character. */
  lemma CrashServesFewerIff(w: World, s: System, t: nat, cut: Cut)
    requires Sound(w, s) && Synced(w, s) && CanCrash(w, s, t, cut)
    ensures var n, k := AfterRestart(w, AfterCrash(w, s, t, cut)), Written(s.tasks[t].record, cut);
            n.up && !(s.records <= n.records) <==> Exposed(s) && k > 0 && !InsideCharacter(s.tasks[t].record, k)
  {
    hide Created, DigestMatches, Replay, WellShaped, Replayable, BodyBytes, LineBytes, ReceiptWellFormed, AppendError;
    hide Sound, CutAppend, Possible, InsideCharacter, FileContradicts, WholeLine, Lines, Terminated, AfterRestart;
    SealedFacts(w, s, t);
    RestartAfterCrash(w, s, t, cut);
    var b, r, rs := s.disk.journal.value, s.tasks[t].record, s.records;
    LinesReplay(w.service, b, rs);
    ShapedWholeLine(w.service, rs, r);
    assert |rs + [r]| == |rs| + 1;
    if ExposedTail(b, rs) {
      var p := SecuredPrefix(w.service, b, rs);
      assert !(rs <= rs[..|rs| - 1]);
      assert rs[..|rs| - 1] != rs + [r];
    }
  }

  // ---- After a stop inside an open ------------------------------------------

  /** A stop inside an open that leaves no file short. */
  predicate CarefulStop(w: World, s: System, g: Progress)
    requires CanStop(w.service, w.paths, s.disk, g)
  {
    g.part.Some? ==> g.part.value == |BodyBytes(w.service, Replayed(w.service, w.paths, s.disk).value[g.done])|
  }

  /** The next restart comes to the same end as an undisturbed one, unless a file
      was left short; then the service stays down. */
  lemma RestartAfterStoppedOpening(w: World, s: System, g: Progress)
    requires !s.up && CanStop(w.service, w.paths, s.disk, g)
    ensures var n := AfterRestart(w, s.(disk := StoppedOpen(w.service, w.paths, s.disk, g)));
            if CarefulStop(w, s, g) then n == AfterRestart(w, s) else !n.up
  {
    hide Open, StoppedOpen, Replayed, BodyBytes, Verify;
    StoppedOpenRecovers(w.service, w.paths, s.disk, g);
  }

  // ---- Runs that keep everything --------------------------------------------

  /** Nothing answered is lost, now or at the next start: memory and disk agree, or
      the next restart succeeds with every record memory held. */
  ghost predicate Kept(w: World, s: System) {
    if s.up then Synced(w, s)
    else AfterRestart(w, s).up && s.records <= AfterRestart(w, s).records
  }

  /** What must hold of an event, checkable before it. */
  predicate Careful(w: World, s: System, e: Event)
    requires w.paths.journaled
  {
    match e
    case Append(t) => CanAppend(w, s, t) ==> MayAppend(w, s, s.tasks[t].record)
    case Crash(t, cut) => CanCrash(w, s, t, cut) ==> CarefulCrash(w, s, s.tasks[t].record, cut)
    case StopOpening(g) => !s.up && CanStop(w.service, w.paths, s.disk, g) ==> CarefulStop(w, s, g)
    case _ => true
  }

  /** What is to be shown of each event. */
  ghost predicate KeepsIffCareful(w: World, s: System, e: Event)
    requires w.paths.journaled
  {
    Step(w, s, e).Some? ==> (Kept(w, Step(w, s, e).value) <==> Careful(w, s, e))
  }

  lemma AppendStepKeepsIff(w: World, s: System, t: nat)
    requires w.paths.journaled && Sound(w, s)
    ensures KeepsIffCareful(w, s, Append(t))
  {
    hide Sound, CanAppend, AfterAppend, MayAppend, Synced;
    if CanAppend(w, s, t) { AppendKeepsIff(w, s, t); }
  }

  lemma CrashStepKeepsIff(w: World, s: System, t: nat, cut: Cut)
    requires w.paths.journaled && Sound(w, s) && Kept(w, s)
    ensures KeepsIffCareful(w, s, Crash(t, cut))
  {
    hide Sound, CanCrash, AfterCrash, AfterRestart, CarefulCrash, Synced, Survivors, AppendError, Notarized, Reserved;
    hide Possible;
    if CanCrash(w, s, t, cut) {
      CrashGoesDown(w, s, t, cut);
      assert Synced(w, s);
      CrashKeepsAllIff(w, s, t, cut);
    }
  }

  lemma StopOpeningKeepsIff(w: World, s: System, g: Progress)
    requires w.paths.journaled && Kept(w, s)
    ensures KeepsIffCareful(w, s, StopOpening(g))
  {
    hide AfterRestart, CanStop, StoppedOpen, CarefulStop, Synced, Survivors, Open, AppendError, Notarized, Reserved;
    if !s.up && CanStop(w.service, w.paths, s.disk, g) { RestartAfterStoppedOpening(w, s, g); }
  }

  lemma OtherStepsKeep(w: World, s: System, e: Event)
    requires w.paths.journaled && Sound(w, s) && Kept(w, s) && !e.Append? && !e.Crash? && !e.StopOpening?
    ensures KeepsIffCareful(w, s, e)
  {
    hide Sound, AfterRestart, Kept;
    if Step(w, s, e).Some? {
      match e {
        case Stop => StopKeeps(w, s) by { UpIsSynced(w, s); }
        case Restart => RestartKeeps(w, s);
        case Tick(now) => TickKeeps(w, s, now);
        case _ => QuietStep(w, s, e); hide Step; QuietKeeps(w, s, Step(w, s, e).value);
      }
    }
  }

  lemma UpIsSynced(w: World, s: System)
    requires Kept(w, s) && s.up
    ensures Synced(w, s)
  {}

  /** A step keeps everything exactly when it is careful. */
  lemma StepKeepsIff(w: World, s: System, e: Event)
    requires Sound(w, s) && Kept(w, s) && Step(w, s, e).Some?
    ensures w.paths.journaled
    ensures Kept(w, Step(w, s, e).value) <==> Careful(w, s, e)
  {
    assert w.paths.journaled;
    hide Sound, Step, Kept, Careful;
    match e {
      case Append(t) => AppendStepKeepsIff(w, s, t);
      case Crash(t, cut) => CrashStepKeepsIff(w, s, t, cut);
      case StopOpening(g) => StopOpeningKeepsIff(w, s, g);
      case _ => OtherStepsKeep(w, s, e);
    }
  }

  lemma AppendKeepsIff(w: World, s: System, t: nat)
    requires Sound(w, s) && CanAppend(w, s, t)
    ensures AfterAppend(w, s, t).up
    ensures Synced(w, AfterAppend(w, s, t)) <==> MayAppend(w, s, s.tasks[t].record)
  {
    hide Sound, Replay, LineBytes, AfterAppend, BodyBytes, MayAppend, Created, Replayable, WellShaped;
    hide ReceiptWellFormed;
    hide DigestMatches, AppendError, Recorded, Authentic;
    SealedFacts(w, s, t);
    AppendIsRecorded(w, s, t);
    DurableIff(w, s, t);
  }

  lemma CrashGoesDown(w: World, s: System, t: nat, cut: Cut)
    requires CanCrash(w, s, t, cut)
    ensures !AfterCrash(w, s, t, cut).up && AfterCrash(w, s, t, cut).records == s.records && CanAppend(w, s, t) && s.up
    ensures Possible(w.service, w.paths, s.tasks[t].record, cut)
  {
    hide AppendError, CutAppend, Possible;
  }

  lemma StopKeeps(w: World, s: System)
    requires Sound(w, s) && Synced(w, s)
    ensures Kept(w, Down(s, s.disk))
  {
    hide Authentic, Serialized, Survivors, Materialized, Open, Genuine;
    OpensInPlace(w.service, w.paths, s.disk, s.records);
  }

  lemma RestartKeeps(w: World, s: System)
    requires Sound(w, s) && Kept(w, s) && !s.up
    ensures Kept(w, AfterRestart(w, s))
  {
    hide Sound, Survivors, AfterRestart;
    RestartIsRecorded(w, s);
  }

  lemma TickKeeps(w: World, s: System, now: i64)
    requires Kept(w, s)
    ensures Kept(w, s.(clock := now))
  {
    hide Survivors, Open;
  }

  lemma QuietKeeps(w: World, s: System, n: System)
    requires Kept(w, s) && s.up && n == s.(tasks := n.tasks, holder := n.holder)
    ensures Kept(w, n)
  {
    hide Survivors;
  }

  ghost predicate KeptThroughout(w: World, s: System, es: seq<Event>)
    decreases |es|
  {
    Kept(w, s) && (es != [] && Step(w, s, es[0]).Some? ==> KeptThroughout(w, Step(w, s, es[0]).value, es[1..]))
  }

  predicate CarefulRun(w: World, s: System, es: seq<Event>)
    requires w.paths.journaled
    decreases |es|
  {
    es != [] && Step(w, s, es[0]).Some? ==>
      Careful(w, s, es[0]) && CarefulRun(w, Step(w, s, es[0]).value, es[1..])
  }

  /** A run keeps everything throughout exactly when each of its events is careful. */
  lemma {:induction false} RunKeepsIff(w: World, s: System, es: seq<Event>)
    requires Sound(w, s) && Kept(w, s)
    ensures w.paths.journaled
    ensures KeptThroughout(w, s, es) <==> CarefulRun(w, s, es)
    decreases |es|
  {
    assert w.paths.journaled;
    hide Sound, Step, Kept, Careful;
    if es == [] || Step(w, s, es[0]).None? {
    } else {
      var n := Step(w, s, es[0]).value;
      StepKeepsIff(w, s, es[0]);
      if Kept(w, n) {
        StepKeepsSound(w, s, es[0]);
        RunKeepsIff(w, n, es[1..]);
      }
    }
  }

  lemma InitialIsKept(w: World, clock: i64)
    requires w.paths.journaled
    ensures Kept(w, Initial(clock))
  {}

  lemma {:induction false} CarefulRunKeeps(w: World, s: System, es: seq<Event>)
    requires Sound(w, s) && Kept(w, s) && w.paths.journaled && CarefulRun(w, s, es) && Run(w, s, es).Some?
    ensures Kept(w, Run(w, s, es).value) && s.records <= Run(w, s, es).value.records
    decreases |es|
  {
    hide Sound, Step, Kept, Careful;
    if es == [] {
    } else {
      StepKeepsIff(w, s, es[0]);
      StepKeepsSound(w, s, es[0]);
      RecordsGrow(w, s, es[0]);
      CarefulRunKeeps(w, Step(w, s, es[0]).value, es[1..]);
    }
  }

  lemma RecordsGrow(w: World, s: System, e: Event)
    requires Kept(w, s) && Step(w, s, e).Some?
    ensures s.records <= Step(w, s, e).value.records
  {
    hide Synced, AfterRestart, AfterAppend, AfterCrash, AfterAnswer, CanAppend, CanCrash, CanStop, StoppedOpen;
    if !e.Restart? {
      hide Step, Kept;
      StepInMemory(w, s, e);
    }
  }

  /** After every careful run from an empty archive the service is up or comes up at
      the next restart, and serves every record it ever answered with. */
  lemma EveryAnswerIsAvailable(w: World, clock: i64, before: seq<Event>, s: System, after: seq<Event>, n: System,
      path: string)
    requires w.paths.journaled && Run(w, Initial(clock), before) == Some(s) && Run(w, s, after) == Some(n)
    requires CarefulRun(w, Initial(clock), before) && CarefulRun(w, s, after)
    requires GetResponse(w.service, s.records, path).Found?
    ensures var m := if n.up then n else AfterRestart(w, n);
            m.up && GetResponse(w.service, m.records, path) == GetResponse(w.service, s.records, path)
  {
    hide Sound, Run, CarefulRun, GetResponse, AfterRestart, Synced;
    InitialIsSound(w, clock);
    InitialIsKept(w, clock);
    RunKeepsSound(w, Initial(clock), before);
    CarefulRunKeeps(w, Initial(clock), before);
    CarefulRunKeeps(w, s, after);
    var m := if n.up then n else AfterRestart(w, n);
    GetExtends(w.service, s.records, m.records, path);
  }
}
