/** The as-of catalogue over whole runs. While the clock does not go back it is a
    prefix of the records, and final from exactly the moment its instant is past;
    if the clock may go back it is never final (src/api.rs, src/store.rs). */
module Catalogue {
  import opened Basics
  import opened Records
  import opened JournalLines
  import opened Journal
  import opened Recovery
  import opened Store
  import opened Reopening
  import opened Ingest
  import opened Archive
  import opened Requests
  import opened Runs
  import Timestamps

  // ---- A clock that does not go back ----------------------------------------

  predicate Steady(s: System, e: Event) {
    e.Tick? ==> e.now >= s.clock
  }

  predicate SteadyRun(w: World, s: System, es: seq<Event>)
    decreases |es|
  {
    es != [] ==>
      Steady(s, es[0]) && (Step(w, s, es[0]).Some? ==> SteadyRun(w, Step(w, s, es[0]).value, es[1..]))
  }

  /** In order of time, and none in the future. */
  predicate InTime(rs: seq<SnapshotRecord>, clock: i64) {
    NonDecreasing(rs) && forall r <- rs :: r.notarizedAt <= clock
  }

  /** An instant reserved in the present, not before any record's. */
  predicate Timely(rs: seq<SnapshotRecord>, clock: i64, at: i64) {
    at <= clock && forall r <- rs :: r.notarizedAt <= at
  }

  predicate TimelyTask(rs: seq<SnapshotRecord>, clock: i64, task: Task) {
    && (task.Pending? ==> Timely(rs, clock, task.draft.notarizedAt))
    && (task.Sealed? ==> Timely(rs, clock, task.record.notarizedAt))
  }

  predicate AllTimely(s: System) {
    forall t <- s.tasks :: TimelyTask(s.records, s.clock, s.tasks[t])
  }

  /** What a steady clock keeps, on top of `Sound`. */
  ghost predicate Dated(w: World, s: System) {
    && InTime(s.records, s.clock) && AllTimely(s)
    && forall all :: Survivors(w.service, s.disk) == Some(all) ==> InTime(all, s.clock)
  }

  lemma WaitingIsTimely(s: System)
    requires AllWaiting(s)
    ensures AllTimely(s)
  {}

  lemma MovedIsTimely(s: System, t: nat, task: Task)
    requires AllTimely(s) && TimelyTask(s.records, s.clock, task)
    ensures AllTimely(s.(tasks := s.tasks[t := task]))
  {
    hide TimelyTask;
  }

  lemma AnsweredIsTimely(w: World, s: System, t: nat, reply: LogReply)
    requires Serialized(w, s) && AllTimely(s) && InFlight(s, t) && s.tasks[t].Pending?
    ensures AllTimely(AfterAnswer(w, s, t, reply))
  {
    hide Created, Notarized, Serialized, Draftable, Outcome, DigestMatches, Commitment;
    PendingDraft(w, s, t);
    assert TimelyTask(s.records, s.clock, s.tasks[t]);
    var draft := s.tasks[t].draft;
    if Notarized(w.service, w.notary, draft, reply).Some? {
      NotarizedIsCreated(w.service, w.notary, draft, reply);
      MovedIsTimely(s, t, Sealed(Notarized(w.service, w.notary, draft, reply).value));
    }
  }

  lemma ReservedIsTimely(s: System, t: nat, req: Request)
    requires AllTimely(s) && InTime(s.records, s.clock) && |s.records| < U64_LIMIT
    ensures AllTimely(s.(tasks := s.tasks[t := Pending(Reserved(req, |s.records|, s.clock))]))
  {
    hide NonDecreasing;
    MovedIsTimely(s, t, Pending(Reserved(req, |s.records|, s.clock)));
  }

  lemma TasksStayTimely(w: World, s: System, e: Event)
    requires Serialized(w, s) && AllTimely(s) && InTime(s.records, s.clock) && Step(w, s, e).Some? && Steady(s, e)
    ensures AllTimely(Step(w, s, e).value)
  {
    hide AfterAnswer, AfterAppend, CutAppend, Open, CanCrash, CanStop, StoppedOpen, InTime, Serialized, Reserved;
    match e {
      case Reserve(t) => ReservedIsTimely(s, t, s.tasks[t].req);
      case Answer(t, reply) => AnsweredIsTimely(w, s, t, reply);
      case Append(t) =>
        AppendedIsSerialized(w, s, t);
        WaitingIsTimely(AfterAppend(w, s, t));
      case Restart => DownIsIdle(w, s);
      case _ =>
    }
  }

  lemma DownIsIdle(w: World, s: System)
    requires Serialized(w, s) && !s.up
    ensures s.tasks == map[]
  {}

  lemma InTimeMore(rs: seq<SnapshotRecord>, r: SnapshotRecord, clock: i64)
    requires InTime(rs, clock) && Timely(rs, clock, r.notarizedAt)
    ensures InTime(rs + [r], clock)
  {
    forall i, j | 0 <= i < j < |rs + [r]| ensures (rs + [r])[i].notarizedAt <= (rs + [r])[j].notarizedAt {
      assert rs[i] in rs;
    }
  }

  lemma SealedIsTimely(s: System, t: nat)
    requires AllTimely(s) && t in s.tasks && s.tasks[t].Sealed?
    ensures Timely(s.records, s.clock, s.tasks[t].record.notarizedAt)
  {
    assert TimelyTask(s.records, s.clock, s.tasks[t]);
  }

  lemma InTimePrefix(rs: seq<SnapshotRecord>, all: seq<SnapshotRecord>, clock: i64)
    requires InTime(all, clock) && rs <= all
    ensures InTime(rs, clock)
  {
    forall i, j | 0 <= i < j < |rs| ensures rs[i].notarizedAt <= rs[j].notarizedAt {
      assert all[i].notarizedAt <= all[j].notarizedAt;
    }
    assert forall r <- rs :: r in all;
  }

  lemma DatedStep(w: World, s: System, e: Event)
    requires Sound(w, s) && Dated(w, s) && Step(w, s, e).Some? && Steady(s, e)
    ensures Dated(w, Step(w, s, e).value)
  {
    SoundFacts(w, s);
    TasksStayTimely(w, s, e);
    hide Sound, InTime, AllTimely, Survivors, AfterAppend, AfterCrash, CanCrash, AfterRestart, CanStop, StoppedOpen;
    hide Timely;
    match e {
      case Append(t) => AppendIsDated(w, s, t);
      case Crash(t, cut) => CrashIsDated(w, s, t, cut);
      case Restart => RestartIsDated(w, s);
      case StopOpening(g) => StoppedOpenRecovers(w.service, w.paths, s.disk, g);
      case Tick(now) => TickIsDated(w, s, now);
      case Stop =>
      case _ => QuietStep(w, s, e); hide Step;
    }
  }

  lemma SoundFacts(w: World, s: System)
    requires Sound(w, s)
    ensures w.paths.journaled && Serialized(w, s)
  {}

  /** What the journal yields after an append is no more than memory holds. */
  lemma AppendYieldsPart(w: World, s: System, t: nat)
    requires Sound(w, s) && CanAppend(w, s, t)
    ensures var all := Survivors(w.service, AfterAppend(w, s, t).disk);
            all.Some? ==> all.value <= s.records + [s.tasks[t].record]
  {
    hide Sound, Survivors, Replayable, Genuine, Authentic, Materialized, Appended, Terminated;
    AppendIsRecorded(w, s, t);
  }

  lemma AppendIsDated(w: World, s: System, t: nat)
    requires Sound(w, s) && CanAppend(w, s, t) && InTime(s.records, s.clock) && AllTimely(s)
    ensures var n := AfterAppend(w, s, t);
            && InTime(n.records, n.clock)
            && forall all :: Survivors(w.service, n.disk) == Some(all) ==> InTime(all, n.clock)
  {
    hide Sound, InTime, AllTimely, Survivors, AfterAppend, Timely, Recorded, Authentic, Appended;
    var more := s.records + [s.tasks[t].record];
    AppendIsRecorded(w, s, t);
    AppendYieldsPart(w, s, t);
    SealedIsTimely(s, t);
    InTimeMore(s.records, s.tasks[t].record, s.clock);
    var all := Survivors(w.service, AfterAppend(w, s, t).disk);
    if all.Some? { InTimePrefix(all.value, more, s.clock); }
  }

  lemma TickIsDated(w: World, s: System, now: i64)
    requires InTime(s.records, s.clock) && now >= s.clock
    requires forall all :: Survivors(w.service, s.disk) == Some(all) ==> InTime(all, s.clock)
    ensures InTime(s.records, now)
    ensures forall all :: Survivors(w.service, s.disk) == Some(all) ==> InTime(all, now)
  {
    hide NonDecreasing, Survivors;
  }

  lemma CrashIsDated(w: World, s: System, t: nat, cut: Cut)
    requires Sound(w, s) && InTime(s.records, s.clock) && AllTimely(s) && CanCrash(w, s, t, cut)
    ensures var n := AfterCrash(w, s, t, cut);
            && n.records == s.records && n.clock == s.clock
            && forall all :: Survivors(w.service, n.disk) == Some(all) ==> InTime(all, n.clock)
  {
    hide Sound, InTime, AllTimely, Survivors, CutAppend, Timely, AppendError, Possible, Genuine, Replayable, LineBytes;
    CrashYields(w, s, t, cut);
    SealedIsTimely(s, t);
    InTimeMore(s.records, s.tasks[t].record, s.clock);
    var all := Survivors(w.service, AfterCrash(w, s, t, cut).disk);
    if all.Some? && all.value <= s.records { InTimePrefix(all.value, s.records, s.clock); }
  }

  lemma RestartIsDated(w: World, s: System)
    requires w.paths.journaled && !s.up && InTime(s.records, s.clock)
    requires forall all :: Survivors(w.service, s.disk) == Some(all) ==> InTime(all, s.clock)
    ensures var n := AfterRestart(w, s);
            && n.clock == s.clock && InTime(n.records, n.clock)
            && forall all :: Survivors(w.service, n.disk) == Some(all) ==> InTime(all, n.clock)
  {
    hide InTime, Survivors, Open;
    OpenYieldsSurvivors(w.service, w.paths, s.disk);
  }

  lemma {:induction false} DatedRun(w: World, s: System, es: seq<Event>)
    requires Sound(w, s) && Dated(w, s) && Run(w, s, es).Some? && SteadyRun(w, s, es)
    ensures Dated(w, Run(w, s, es).value)
    decreases |es|
  {
    hide Step, Sound, Steady, Dated;
    if es == [] {
    } else {
      DatedStep(w, s, es[0]);
      StepKeepsSound(w, s, es[0]);
      DatedRun(w, Step(w, s, es[0]).value, es[1..]);
    }
  }

  /** In every state a run with a steady clock reaches, instants never decrease, and
      the whole catalogue as of an instant is a prefix of the records: those
      notarized by then. */
  lemma CatalogueIsPrefix(w: World, clock: i64, es: seq<Event>, at: i64) returns (n: nat)
    requires w.paths.journaled && Run(w, Initial(clock), es).Some? && SteadyRun(w, Initial(clock), es)
    ensures var rs := Run(w, Initial(clock), es).value.records;
            && NonDecreasing(rs) && n <= |rs| && Listed(rs, None, Some(at)) == rs[..n]
            && forall i :: 0 <= i < |rs| ==> (rs[i].notarizedAt <= at <==> i < n)
  {
    InitialIsSound(w, clock);
    assert Dated(w, Initial(clock));
    hide Run, Sound, SteadyRun, NonDecreasing;
    DatedRun(w, Initial(clock), es);
    n := ListedIsPrefix(Run(w, Initial(clock), es).value.records, at);
  }

  // ---- Instants that are past -----------------------------------------------

  predicate LaterTask(task: Task, at: i64) {
    && (task.Pending? ==> task.draft.notarizedAt > at)
    && (task.Sealed? ==> task.record.notarizedAt > at)
  }

  /** `at` is past: before the clock and before every stamp in flight. */
  predicate Past(s: System, at: i64) {
    at < s.clock && forall t <- s.tasks :: LaterTask(s.tasks[t], at)
  }

  lemma PastStep(w: World, s: System, e: Event, at: i64)
    requires Serialized(w, s) && Past(s, at) && Step(w, s, e).Some? && Steady(s, e)
    ensures Past(Step(w, s, e).value, at)
  {
    hide AppendError, Appended, CutAppend, Open, Notarized, LaterTask, Serialized, CanCrash, CanStop, StoppedOpen;
    hide Reserved;
    match e {
      case Reserve(t) => ReservedIsLater(s.tasks[t].req, |s.records|, s.clock, at);
      case Answer(t, reply) => AnsweredIsLater(w, s, t, reply, at);
      case Arrive(t, req) => IdleIsLater(req, at);
      case Acquire(t) => IdleIsLater(s.tasks[t].req, at);
      case _ =>
    }
  }

  lemma ReservedIsLater(req: Request, n: u64, clock: i64, at: i64)
    requires at < clock
    ensures LaterTask(Pending(Reserved(req, n, clock)), at)
  {}

  lemma IdleIsLater(req: Request, at: i64)
    ensures LaterTask(Waiting(req), at) && LaterTask(Holding(req), at)
  {}

  lemma AnsweredIsLater(w: World, s: System, t: nat, reply: LogReply, at: i64)
    requires Serialized(w, s) && InFlight(s, t) && s.tasks[t].Pending? && Past(s, at)
    ensures Past(AfterAnswer(w, s, t, reply), at)
  {
    hide Created, Notarized, Serialized, Draftable, Outcome, DigestMatches, Commitment;
    PendingDraft(w, s, t);
    var draft := s.tasks[t].draft;
    assert LaterTask(s.tasks[t], at);
    if Notarized(w.service, w.notary, draft, reply).Some? {
      NotarizedIsCreated(w.service, w.notary, draft, reply);
    }
  }

  /** These records are anchored, `at` is past, and every other record there is or
      may yet be is later. */
  ghost predicate Settled(w: World, s: System, at: i64, p: bytes, rs: seq<SnapshotRecord>) {
    && AnchoredAt(w, s, p, rs) && Past(s, at) && AllLaterFrom(s.records, |rs|, at)
    && forall all :: Survivors(w.service, s.disk) == Some(all) ==> AllLaterFrom(all, |rs|, at)
  }

  /** All from the `n`-th record on are later than the instant. */
  predicate AllLaterFrom(rs: seq<SnapshotRecord>, n: nat, at: i64) {
    forall i :: n <= i < |rs| ==> rs[i].notarizedAt > at
  }

  lemma OneMoreIsLater(rs: seq<SnapshotRecord>, r: SnapshotRecord, n: nat, at: i64, all: seq<SnapshotRecord>)
    requires AllLaterFrom(rs, n, at) && r.notarizedAt > at && all <= rs + [r]
    ensures AllLaterFrom(all, n, at)
  {
    forall i | n <= i < |all| ensures all[i].notarizedAt > at {
      assert all[i] == (rs + [r])[i];
    }
  }

  lemma SealedIsLater(s: System, t: nat, at: i64)
    requires Past(s, at) && t in s.tasks && s.tasks[t].Sealed?
    ensures s.tasks[t].record.notarizedAt > at
  {
    assert LaterTask(s.tasks[t], at);
  }

  lemma AppendSettles(w: World, s: System, t: nat, at: i64, n: nat)
    requires Sound(w, s) && CanAppend(w, s, t) && Past(s, at) && AllLaterFrom(s.records, n, at)
    ensures var a := AfterAppend(w, s, t);
            && AllLaterFrom(a.records, n, at)
            && forall all :: Survivors(w.service, a.disk) == Some(all) ==> AllLaterFrom(all, n, at)
  {
    hide Sound, Survivors, AfterAppend, Recorded, Authentic, Appended, AllLaterFrom, Past;
    AppendIsRecorded(w, s, t);
    AppendYieldsPart(w, s, t);
    SealedIsLater(s, t, at);
    var more := s.records + [s.tasks[t].record];
    OneMoreIsLater(s.records, s.tasks[t].record, n, at, more);
    var all := Survivors(w.service, AfterAppend(w, s, t).disk);
    if all.Some? { OneMoreIsLater(s.records, s.tasks[t].record, n, at, all.value); }
  }

  lemma CrashSettles(w: World, s: System, t: nat, cut: Cut, at: i64, n: nat)
    requires Sound(w, s) && CanCrash(w, s, t, cut) && Past(s, at) && AllLaterFrom(s.records, n, at)
    ensures var c := AfterCrash(w, s, t, cut);
            && c.records == s.records
            && forall all :: Survivors(w.service, c.disk) == Some(all) ==> AllLaterFrom(all, n, at)
  {
    hide Sound, Survivors, CutAppend, AppendError, Possible, Genuine, Replayable, LineBytes, AllLaterFrom, Past;
    CrashYields(w, s, t, cut);
    SealedIsLater(s, t, at);
    var more := s.records + [s.tasks[t].record];
    var all := Survivors(w.service, AfterCrash(w, s, t, cut).disk);
    if all.Some? {
      assert s.records <= more;
      OneMoreIsLater(s.records, s.tasks[t].record, n, at, all.value);
    }
  }

  lemma RestartSettles(w: World, s: System, at: i64, n: nat)
    requires w.paths.journaled && !s.up && AllLaterFrom(s.records, n, at)
    requires forall all :: Survivors(w.service, s.disk) == Some(all) ==> AllLaterFrom(all, n, at)
    ensures var m := AfterRestart(w, s);
            && AllLaterFrom(m.records, n, at)
            && forall all :: Survivors(w.service, m.disk) == Some(all) ==> AllLaterFrom(all, n, at)
  {
    hide AllLaterFrom, Survivors, Open;
    OpenYieldsSurvivors(w.service, w.paths, s.disk);
  }

  lemma SettledStep(w: World, s: System, e: Event, at: i64, p: bytes, rs: seq<SnapshotRecord>)
    requires Sound(w, s) && Settled(w, s, at, p, rs) && Step(w, s, e).Some? && Steady(s, e)
    ensures Settled(w, Step(w, s, e).value, at, p, rs)
  {
    SoundFacts(w, s);
    hide Sound, AnchoredAt, Past, AllLaterFrom, Survivors, AfterAppend, AfterCrash, CanCrash, AfterRestart, CanStop;
    hide StoppedOpen;
    AnchoredStep(w, s, e, p, rs);
    PastStep(w, s, e, at);
    match e {
      case Append(t) => AppendSettles(w, s, t, at, |rs|);
      case Crash(t, cut) => CrashSettles(w, s, t, cut, at, |rs|);
      case Restart => RestartSettles(w, s, at, |rs|);
      case StopOpening(g) => StoppedOpenRecovers(w.service, w.paths, s.disk, g);
      case Stop =>
      case Tick(_) =>
      case _ => QuietStep(w, s, e); hide Step;
    }
  }

  lemma {:induction false} SettledRun(w: World, s: System, es: seq<Event>, at: i64, p: bytes, rs: seq<SnapshotRecord>)
    requires Sound(w, s) && Settled(w, s, at, p, rs) && Run(w, s, es).Some? && SteadyRun(w, s, es)
    ensures Settled(w, Run(w, s, es).value, at, p, rs)
    decreases |es|
  {
    hide Step, Sound, Steady, Settled;
    if es == [] {
    } else {
      SettledStep(w, s, es[0], at, p, rs);
      StepKeepsSound(w, s, es[0]);
      SettledRun(w, Step(w, s, es[0]).value, es[1..], at, p, rs);
    }
  }

  lemma ListedFrom(rs: seq<SnapshotRecord>, all: seq<SnapshotRecord>, passportId: Option<string>, at: i64)
    requires rs <= all && AllLaterFrom(all, |rs|, at)
    ensures Listed(all, passportId, Some(at)) == Listed(rs, passportId, Some(at))
  {
    var rest := all[|rs|..];
    assert all == rs + rest;
    forall r | r in rest ensures r.notarizedAt > at {
      var i :| 0 <= i < |rest| && rest[i] == r;
      assert r == all[|rs| + i];
    }
    ListedAppend(rs, rest, passportId, Some(at));
    ListedNone(rest, passportId, at);
  }

  /** The last record can be lost, and would be missed as of `at`. */
  predicate AtRisk(s: System, at: i64) {
    Exposed(s) && s.records != [] && s.records[|s.records| - 1].notarizedAt <= at
  }

  lemma PastIsSettled(w: World, s: System, at: i64) returns (p: bytes, rs: seq<SnapshotRecord>)
    requires Synced(w, s) && s.disk.journal.Some? && Past(s, at) && !AtRisk(s, at)
    ensures Settled(w, s, at, p, rs)
  {
    hide Survivors, Past, Clean;
    rs := Secured(s.disk.journal.value, s.records);
    p := SyncedIsAnchored(w, s);
  }

  /** As-of stability: once `at` lies before the clock and before every stamp in
      flight, its catalogue never changes again, whatever arrives, is cancelled,
      is appended to any journal, crashes or restarts, while the clock does not go
      back and no record it lists is exposed. */
  lemma CatalogueIsStable(w: World, s: System, es: seq<Event>, passportId: Option<string>, at: i64)
    requires Sound(w, s) && Synced(w, s) && Past(s, at) && !AtRisk(s, at)
    requires Run(w, s, es).Some? && SteadyRun(w, s, es)
    ensures Listed(Run(w, s, es).value.records, passportId, Some(at)) == Listed(s.records, passportId, Some(at))
  {
    SyncedHasJournal(w, s);
    hide Run, Sound, SteadyRun, Past, Synced, AtRisk, Clean, Survivors, AllLaterFrom;
    var p, rs := PastIsSettled(w, s, at);
    SettledRun(w, s, es, at, p, rs);
    ListedFrom(rs, s.records, passportId, at);
    ListedFrom(rs, Run(w, s, es).value.records, passportId, at);
  }

  lemma SyncedHasJournal(w: World, s: System)
    requires Sound(w, s) && Synced(w, s)
    ensures w.paths.journaled && s.disk.journal.Some? && Genuine(w, s.records)
  {
    hide Genuine, Survivors;
  }

  // ---- When the catalogue can still change ----------------------------------

  /** Memory and disk agree, and nothing stands in the way of another create. */
  ghost predicate Ready(w: World, s: System) {
    Sound(w, s) && Synced(w, s) && Signing(w) && |s.records| < U64_LIMIT
  }

  /** A run without ticks, and the records it ends with. */
  ghost predicate EndsWith(w: World, s: System, es: seq<Event>, rs: seq<SnapshotRecord>) {
    Run(w, s, es).Some? && SteadyRun(w, s, es) && Run(w, s, es).value.records == rs
  }

  lemma {:induction false} TickFreeIsSteady(w: World, s: System, es: seq<Event>)
    requires forall e <- es :: !e.Tick?
    ensures SteadyRun(w, s, es)
    decreases |es|
  {
    hide Step;
    if es == [] {
    } else {
      assert es[0] in es && forall e <- es[1..] :: e in es;
      if Step(w, s, es[0]).Some? { TickFreeIsSteady(w, Step(w, s, es[0]).value, es[1..]); }
    }
  }

  lemma PostHasNoTick(req: Request)
    ensures forall e <- Post(req) :: !e.Tick?
  {}

  /** A stop, a restart and a post: whatever was in flight is gone. */
  function PostNow(req: Request): seq<Event> {
    [Stop, Restart] + Post(req)
  }

  /** The record it adds. */
  function NextRecord(w: World, s: System, req: Request): Option<SnapshotRecord> {
    if |s.records| < U64_LIMIT then SealedFor(w, req, |s.records|, s.clock) else None
  }

  /** One record more, stamped now. */
  lemma PostsNow(w: World, s: System, req: Request)
    requires Ready(w, s)
    ensures s.disk.journal.Some? && NextRecord(w, s, req).Some?
    ensures var r := NextRecord(w, s, req).value;
            && r.notarizedAt == s.clock && ReceiptWellFormed(r)
            && Run(w, s, PostNow(req)) == Some(Idle(s.records + [r], Appended(w.service, w.paths, s.disk, r), s.clock))
            && EndsWith(w, s, PostNow(req), s.records + [r])
  {
    SyncedHasJournal(w, s);
    hide Run, Post, Sound, Synced, Appended, Created, DigestMatches, Replayable, ReceiptWellFormed, Notarized, Genuine;
    hide SnapshotIdOf, Timestamps.Printable, SteadyRun, Step, SealedFor, SealEvents, Idle, Signing, ResponseTo;
    Reopens(w, s);
    Posts(w, s.records, s.disk, s.clock, req);
    SealingWorks(w, req, |s.records|, s.clock);
    RunAppend(w, s, [Stop, Restart], Post(req));
    ReopenedPostIsSteady(w, s, req);
    var r := NextRecord(w, s, req).value;
    IdleRecords(s.records + [r], Appended(w.service, w.paths, s.disk, r), s.clock);
  }

  lemma IdleRecords(rs: seq<SnapshotRecord>, d: Disk, clock: i64)
    ensures Idle(rs, d, clock).records == rs
  {}

  lemma ReopenedPostIsSteady(w: World, s: System, req: Request)
    ensures SteadyRun(w, s, PostNow(req))
  {
    hide Post, SteadyRun, Run;
    PostHasNoTick(req);
    TickFreeIsSteady(w, s, PostNow(req));
  }

  /** The request about to append does. */
  lemma AppendsNow(w: World, s: System, t: nat) returns (es: seq<Event>)
    requires Sound(w, s) && CanAppend(w, s, t)
    ensures EndsWith(w, s, es, s.records + [s.tasks[t].record])
  {
    hide Sound, CanAppend, AfterAppend, Recorded, Authentic, Appended;
    es := [Append(t)] + [];
    AppendIsRecorded(w, s, t);
    RunStep(w, s, Append(t), []);
    RunNothing(w, AfterAppend(w, s, t));
    TickFreeIsSteady(w, s, es);
  }

  /** What sealing needs. */
  lemma PendingSeals(w: World, s: System, t: nat)
    requires Sound(w, s) && Signing(w) && InFlight(s, t) && s.tasks[t].Pending?
    ensures s.up && s.disk.journal.Some?
    ensures var r := Notarized(w.service, w.notary, s.tasks[t].draft, NO_LOG);
            r.Some? && r.value.notarizedAt == s.tasks[t].draft.notarizedAt
  {
    hide Notarized, Draftable, Signing;
    SoundFacts(w, s);
    SealedHasJournal(w, s);
    hide Sound, Serialized;
    PendingDraft(w, s, t);
    DraftSeals(w, s.tasks[t].draft);
  }

  /** The request awaiting the log is sealed. */
  lemma AnswerSeals(w: World, s: System, t: nat)
    requires Sound(w, s) && Signing(w) && InFlight(s, t) && s.tasks[t].Pending?
    ensures var a := AfterAnswer(w, s, t, NO_LOG);
            && Step(w, s, Answer(t, NO_LOG)) == Some(a) && a.records == s.records && CanAppend(w, a, t) && Sound(w, a)
            && a.tasks[t].record.notarizedAt == s.tasks[t].draft.notarizedAt
  {
    hide Sound, Notarized, Signing, Step, AfterAnswer, CanAppend;
    PendingSeals(w, s, t);
    var r := Notarized(w.service, w.notary, s.tasks[t].draft, NO_LOG).value;
    AnswerStep(w, s, t, NO_LOG, r);
    StepKeepsSound(w, s, Answer(t, NO_LOG));
    SealedCanAppend(w, s, t, r);
  }

  lemma SealedCanAppend(w: World, s: System, t: nat, r: SnapshotRecord)
    requires s.up && s.disk.journal.Some?
    ensures CanAppend(w, s.(tasks := s.tasks[t := Sealed(r)]), t)
  {}

  lemma AnswerStep(w: World, s: System, t: nat, reply: LogReply, r: SnapshotRecord)
    requires InFlight(s, t) && s.tasks[t].Pending?
    requires Notarized(w.service, w.notary, s.tasks[t].draft, reply) == Some(r)
    ensures AfterAnswer(w, s, t, reply) == s.(tasks := s.tasks[t := Sealed(r)])
    ensures Step(w, s, Answer(t, reply)) == Some(AfterAnswer(w, s, t, reply))
  {
    hide Notarized;
  }

  /** And then appended. */
  lemma AnswersNow(w: World, s: System, t: nat) returns (es: seq<Event>, r: SnapshotRecord)
    requires Sound(w, s) && Signing(w) && InFlight(s, t) && s.tasks[t].Pending?
    ensures EndsWith(w, s, es, s.records + [r]) && r.notarizedAt == s.tasks[t].draft.notarizedAt
  {
    hide Sound, Run, CanAppend, SteadyRun, Signing, Step, AfterAnswer;
    AnswerSeals(w, s, t);
    var e, a := Answer(t, NO_LOG), AfterAnswer(w, s, t, NO_LOG);
    CanAppendIsSealed(w, a, t);
    r := a.tasks[t].record;
    var more := AppendsNow(w, a, t);
    es := [e] + more;
    RunStep(w, s, e, more);
    SteadyFirst(w, s, e, more);
  }

  lemma CanAppendIsSealed(w: World, s: System, t: nat)
    requires CanAppend(w, s, t)
    ensures t in s.tasks && s.tasks[t].Sealed?
  {}

  lemma SteadyFirst(w: World, s: System, e: Event, es: seq<Event>)
    requires !e.Tick? && Step(w, s, e).Some? && SteadyRun(w, Step(w, s, e).value, es)
    ensures SteadyRun(w, s, [e] + es)
  {
    hide Step;
    assert ([e] + es)[1..] == es;
  }

  lemma SealedHasJournal(w: World, s: System)
    requires Sound(w, s) && s.up
    ensures s.disk.journal.Some?
  {}

  lemma DraftSeals(w: World, draft: SnapshotRecord)
    requires Signing(w) && Draftable(draft)
    ensures var r := Notarized(w.service, w.notary, draft, NO_LOG);
            r.Some? && r.value.notarizedAt == draft.notarizedAt
  {
    hide Statement, Core, Commitment, BodyBytes, Created, DigestMatches, Draftable;
    SealSucceeds(w.service, w.notary, draft.(anchoring := Outcome(NO_LOG, Commitment(w.service, draft))));
    NotarizedIsCreated(w.service, w.notary, draft, NO_LOG);
  }

  /** A post and a clean stop behind an exposed record cost that record. */
  function LosingPost(req: Request): seq<Event> {
    PostNow(req) + [Stop, Restart]
  }

  lemma ExposedIsLost(w: World, s: System, req: Request)
    requires Ready(w, s) && Exposed(s)
    ensures s.records != [] && EndsWith(w, s, LosingPost(req), s.records[..|s.records| - 1])
    ensures Run(w, s, LosingPost(req)).value.up
  {
    hide Run, SteadyRun, Sound, Synced, Signing, Appended, Replayable, ReceiptWellFormed, AfterRestart, PostNow;
    hide NextRecord;
    hide Exposed, Replay, Step;
    ReadyFacts(w, s);
    ExposedHasRecord(w, s);
    PostsNow(w, s, req);
    var r, kept := NextRecord(w, s, req).value, s.records[..|s.records| - 1];
    var m := Idle(s.records + [r], Appended(w.service, w.paths, s.disk, r), s.clock);
    PostedBehindExposed(w, s, r);
    RunKeepsSound(w, s, PostNow(req));
    FirstKept(w, m, kept);
    RunAppend(w, s, PostNow(req), [Stop, Restart]);
    SteadyThen(w, s, PostNow(req), [Stop, Restart]);
  }

  lemma ReadyFacts(w: World, s: System)
    requires Ready(w, s)
    ensures w.paths.journaled && s.up && s.disk.journal.Some? && Synced(w, s) && Sound(w, s) && Signing(w)
  {
    SyncedHasJournal(w, s);
  }

  lemma ExposedHasRecord(w: World, s: System)
    requires Synced(w, s) && Exposed(s)
    ensures s.records != []
  {
    hide Replay, Lines, Terminated;
    var p := SecuredPrefix(w.service, s.disk.journal.value, s.records);
  }

  lemma PostedBehindExposed(w: World, s: System, r: SnapshotRecord)
    requires w.paths.journaled && Synced(w, s) && s.disk.journal.Some? && Exposed(s) && s.records != []
        && ReceiptWellFormed(r)
    ensures var d := Appended(w.service, w.paths, s.disk, r);
            d.journal.Some? && Replay(w.service, d.journal.value) == Some(s.records[..|s.records| - 1])
  {
    hide Replay, Terminated, Lines, LineBytes, BodyBytes, ReceiptWellFormed;
    FusedAppend(w.service, s.disk.journal.value, s.records, r);
  }

  /** A journal that yields the first of the records in memory opens to them. */
  lemma FirstKept(w: World, m: System, kept: seq<SnapshotRecord>)
    requires Sound(w, m) && m.up && m.disk.journal.Some? && kept <= m.records
    requires Replay(w.service, m.disk.journal.value) == Some(kept)
    ensures var n := Run(w, m, [Stop, Restart]); n.Some? && n.value.up && n.value.records == kept
  {
    StopsAndStarts(w, m);
    hide Replay, Authentic, Serialized, Open, BodyBytes, Genuine, Run;
    assert forall q <- kept :: q in m.records;
    OpensInPlace(w.service, w.paths, m.disk, kept);
  }

  lemma {:induction false} SteadyThen(w: World, s: System, a: seq<Event>, b: seq<Event>)
    requires SteadyRun(w, s, a) && Run(w, s, a).Some? && forall e <- b :: !e.Tick?
    ensures SteadyRun(w, s, a + b)
    decreases |a|
  {
    hide Step, Steady;
    if a == [] {
      assert a + b == b;
      TickFreeIsSteady(w, s, b);
    } else {
      assert (a + b)[0] == a[0] && (a + b)[1..] == a[1..] + b;
      SteadyThen(w, Step(w, s, a[0]).value, a[1..], b);
    }
  }

  /** A run that ends with other listed records: one more, stamped by then, or one
      fewer. */
  ghost predicate Changes(w: World, s: System, es: seq<Event>, at: i64) {
    && Run(w, s, es).Some?
    && Listed(Run(w, s, es).value.records, None, Some(at)) != Listed(s.records, None, Some(at))
  }

  lemma OneMoreListed(rs: seq<SnapshotRecord>, r: SnapshotRecord, at: i64)
    requires r.notarizedAt <= at
    ensures Listed(rs + [r], None, Some(at)) != Listed(rs, None, Some(at))
  {
    ListedAppend(rs, [r], None, Some(at));
    assert [r][1..] == [];
    assert Listed([r], None, Some(at)) == [r];
    assert |Listed(rs + [r], None, Some(at))| == |Listed(rs, None, Some(at))| + 1;
  }

  /** While an instant is not past, some steady run adds a record to its catalogue. */
  lemma PresentStillChanges(w: World, s: System, at: i64, req: Request) returns (es: seq<Event>)
    requires Ready(w, s) && !Past(s, at)
    ensures SteadyRun(w, s, es) && Changes(w, s, es, at)
  {
    hide Sound, Synced, Signing, SteadyRun, Run, LaterTask, Appended, Replayable, Timestamps.Printable;
    hide ReceiptWellFormed;
    var r: SnapshotRecord;
    if at >= s.clock {
      PostsNow(w, s, req);
      es, r := PostNow(req), NextRecord(w, s, req).value;
    } else {
      var t :| t in s.tasks && !LaterTask(s.tasks[t], at);
      UpInRun(w, s);
      es, r := FinishesNow(w, s, t, at);
    }
    OneMoreListed(s.records, r, at);
  }

  lemma UpInRun(w: World, s: System)
    requires Ready(w, s)
    ensures s.up && Sound(w, s) && Signing(w) && s.disk.journal.Some?
  {
    SyncedHasJournal(w, s);
  }

  lemma FinishesNow(w: World, s: System, t: nat, at: i64) returns (es: seq<Event>, r: SnapshotRecord)
    requires Sound(w, s) && Signing(w) && s.up && s.disk.journal.Some? && t in s.tasks && !LaterTask(s.tasks[t], at)
    ensures EndsWith(w, s, es, s.records + [r]) && r.notarizedAt <= at
  {
    hide Sound, Signing, EndsWith;
    if s.tasks[t].Sealed? {
      es := AppendsNow(w, s, t);
      r := s.tasks[t].record;
    } else {
      es, r := AnswersNow(w, s, t);
    }
  }

  /** No run with a steady clock changes the catalogue as of `at`. */
  ghost predicate Immutable(w: World, s: System, at: i64) {
    forall es, passportId :: Run(w, s, es).Some? && SteadyRun(w, s, es) ==>
      Listed(Run(w, s, es).value.records, passportId, Some(at)) == Listed(s.records, passportId, Some(at))
  }

  /** The service marks every answer with an explicit `at` immutable. While the
      clock does not go back it is so exactly when that instant lies before the
      clock and before every stamp in flight, and no record it lists is exposed. */
  lemma ImmutableExactlyWhenPast(w: World, s: System, at: i64, req: Request)
    requires Ready(w, s)
    ensures Immutable(w, s, at) <==> Past(s, at) && !AtRisk(s, at)
  {
    hide Sound, Synced, Signing, Run, SteadyRun, Past, Exposed;
    if Past(s, at) && !AtRisk(s, at) {
      forall es, passportId | Run(w, s, es).Some? && SteadyRun(w, s, es)
        ensures Listed(Run(w, s, es).value.records, passportId, Some(at)) == Listed(s.records, passportId, Some(at))
      {
        CatalogueIsStable(w, s, es, passportId, at);
      }
    } else if !Past(s, at) {
      var es := PresentStillChanges(w, s, at, req);
    } else {
      var es := LosingPost(req);
      ExposedIsLost(w, s, req);
      var rs, last := s.records[..|s.records| - 1], s.records[|s.records| - 1];
      assert rs + [last] == s.records;
      OneMoreListed(rs, last, at);
    }
  }

  // ---- If the clock may go back ---------------------------------------------

  /** A tick to an instant, and a post. */
  function PostAt(req: Request, stamp: i64): seq<Event> {
    [Tick(stamp)] + PostNow(req)
  }

  /** The next record is stamped with that instant. */
  lemma PostsAt(w: World, s: System, req: Request, stamp: i64) returns (r: SnapshotRecord)
    requires Ready(w, s)
    ensures Run(w, s, PostAt(req, stamp)).Some?
    ensures Run(w, s, PostAt(req, stamp)).value.records == s.records + [r] && r.notarizedAt == stamp
    ensures Timestamps.Printable(stamp) ==> ReplayingRun(w, s, PostAt(req, stamp))
  {
    hide Run, Ready, Appended, ReceiptWellFormed, PostNow, NextRecord, Timestamps.Printable, ReplayingRun, SteadyRun;
    var m := s.(clock := stamp);
    TickIsReady(w, s, stamp);
    PostsNow(w, m, req);
    r := NextRecord(w, m, req).value;
    RunStep(w, s, Tick(stamp), PostNow(req));
    if Timestamps.Printable(stamp) {
      PostReplays(w, m, req);
      ReplayingTick(w, s, stamp, PostNow(req));
    }
  }

  /** It replays if the instant prints. */
  lemma PostReplays(w: World, s: System, req: Request)
    requires Ready(w, s) && Timestamps.Printable(s.clock)
    ensures ReplayingRun(w, s, PostNow(req))
  {
    hide Run, ReplayingRun, SealEvents, Replays, Ready, Replayable, SealedBy, Idle, PostNow, NextRecord;
    SealsAfterReopening(w, s, req);
    var first := [Stop, Restart] + SealEvents(0, req, NO_LOG);
    var r := NextRecord(w, s, req).value;
    SealHasNoAppend(req);
    SealedReplays(Idle(s.records, s.disk, s.clock), r);
    ReplayingThen(w, s, first, [Append(0)]);
    PostInParts(req);
  }

  lemma PostInParts(req: Request)
    ensures PostNow(req) == ([Stop, Restart] + SealEvents(0, req, NO_LOG)) + [Append(0)]
  {
    hide SealEvents;
  }

  lemma SealsAfterReopening(w: World, s: System, req: Request)
    requires Ready(w, s)
    ensures NextRecord(w, s, req).Some?
    ensures Run(w, s, [Stop, Restart] + SealEvents(0, req, NO_LOG))
         == Some(SealedBy(Idle(s.records, s.disk, s.clock), 0, NextRecord(w, s, req).value))
    ensures Timestamps.Printable(s.clock) ==> Replayable(NextRecord(w, s, req).value)
  {
    ReadyFacts(w, s);
    hide Run, Sound, Synced, Created, DigestMatches, Replayable, ReceiptWellFormed, Notarized, Signing, SealEvents;
    hide Timestamps.Printable, SnapshotIdOf;
    Reopens(w, s);
    SealingWorks(w, req, |s.records|, s.clock);
    SealsAlone(w, Idle(s.records, s.disk, s.clock), 0, req, NO_LOG);
    RunAppend(w, s, [Stop, Restart], SealEvents(0, req, NO_LOG));
  }

  lemma SealedReplays(s: System, r: SnapshotRecord)
    requires Replayable(r)
    ensures Replays(SealedBy(s, 0, r), Append(0))
  {
    hide Replayable;
  }

  lemma TickIsReady(w: World, s: System, now: i64)
    requires Ready(w, s)
    ensures Ready(w, s.(clock := now)) && Step(w, s, Tick(now)) == Some(s.(clock := now))
  {
    hide Sound, Survivors;
    StepKeepsSound(w, s, Tick(now));
  }

  /** Every record appended in a run will replay. */
  predicate ReplayingRun(w: World, s: System, es: seq<Event>)
    decreases |es|
  {
    es != [] ==> Replays(s, es[0]) && (Step(w, s, es[0]).Some? ==> ReplayingRun(w, Step(w, s, es[0]).value, es[1..]))
  }

  predicate Replays(s: System, e: Event) {
    e.Append? && InFlight(s, e.t) && s.tasks[e.t].Sealed? ==> Replayable(s.tasks[e.t].record)
  }

  lemma SealHasNoAppend(req: Request)
    ensures forall e <- [Stop, Restart] + SealEvents(0, req, NO_LOG) :: !e.Append?
  {}

  /** Events that append nothing, then the append of a record that replays. */
  lemma {:induction false} ReplayingThen(w: World, s: System, a: seq<Event>, last: seq<Event>)
    requires (forall e <- a :: !e.Append?) && Run(w, s, a).Some? && |last| == 1 && Replays(Run(w, s, a).value, last[0])
    ensures ReplayingRun(w, s, a + last)
    decreases |a|
  {
    hide Step, Replayable;
    if a == [] {
      assert a + last == last && last[1..] == [];
    } else {
      assert a[0] in a && forall e <- a[1..] :: e in a;
      assert (a + last)[0] == a[0] && (a + last)[1..] == a[1..] + last;
      ReplayingThen(w, Step(w, s, a[0]).value, a[1..], last);
    }
  }

  lemma ReplayingTick(w: World, s: System, now: i64, es: seq<Event>)
    requires ReplayingRun(w, s.(clock := now), es)
    ensures ReplayingRun(w, s, [Tick(now)] + es)
  {
    assert ([Tick(now)] + es)[1..] == es;
  }

  predicate AllReplay(rs: seq<SnapshotRecord>) {
    forall r <- rs :: Replayable(r)
  }

  /** Only an append and a restart change what memory holds. */
  lemma RecordsStay(w: World, s: System, e: Event)
    requires Step(w, s, e).Some? && !e.Append? && !e.Restart?
    ensures Step(w, s, e).value.records == s.records
  {
    hide Notarized, Reserved, AppendError, CutAppend, CanStop, StoppedOpen, AfterAppend, AfterRestart;
  }

  lemma AppendReplays(w: World, s: System, t: nat)
    requires Sound(w, s) && AllReplay(s.records) && CanAppend(w, s, t) && Replayable(s.tasks[t].record)
    ensures AllReplay(AfterAppend(w, s, t).records)
  {
    hide Sound, Replayable, AfterAppend, Recorded, Authentic, Appended;
    AppendIsRecorded(w, s, t);
  }

  lemma ReplayingStep(w: World, s: System, e: Event)
    requires Sound(w, s) && AllReplay(s.records) && Step(w, s, e).Some? && Replays(s, e)
    ensures AllReplay(Step(w, s, e).value.records)
  {
    hide Sound, AllReplay, Replayable, AfterAppend, AfterRestart, CanCrash, CanStop, StoppedOpen, AfterCrash;
    match e {
      case Append(t) => AppendReplays(w, s, t);
      case Restart => RestartReplays(w, s);
      case _ => RecordsStay(w, s, e); hide Step;
    }
  }

  lemma RestartReplays(w: World, s: System)
    requires Sound(w, s) && AllReplay(s.records) && !s.up
    ensures AllReplay(AfterRestart(w, s).records)
  {
    hide Survivors, Replayable, Authentic, Serialized, Open;
    OpenYieldsSurvivors(w.service, w.paths, s.disk);
  }

  lemma {:induction false} ReplayingKeeps(w: World, s: System, es: seq<Event>)
    requires Sound(w, s) && AllReplay(s.records) && Run(w, s, es).Some? && ReplayingRun(w, s, es)
    ensures AllReplay(Run(w, s, es).value.records)
    decreases |es|
  {
    hide Sound, Step, Replays, AllReplay;
    if es == [] {
    } else {
      ReplayingStep(w, s, es[0]);
      StepKeepsSound(w, s, es[0]);
      ReplayingKeeps(w, Step(w, s, es[0]).value, es[1..]);
    }
  }

  lemma NothingListed(rs: seq<SnapshotRecord>, passportId: Option<string>, at: i64)
    requires AllReplay(rs) && at < Timestamps.FIRST_SECOND
    ensures Listed(rs, passportId, Some(at)) == []
  {
    hide JournalableAnchoring, ReceiptDepth;
    ListedNone(rs, passportId, at);
  }

  /** No run in which every appended record replays changes it, wherever the clock
      goes. */
  ghost predicate ImmutableUnderAnyClock(w: World, s: System, at: i64) {
    forall es, passportId :: Run(w, s, es).Some? && ReplayingRun(w, s, es) ==>
      Listed(Run(w, s, es).value.records, passportId, Some(at)) == Listed(s.records, passportId, Some(at))
  }

  /** If the clock may go back, and only records that replay are appended, a
      catalogue is final exactly when it is empty for good: when its instant lies
      before the year 0. */
  lemma AnyClockReopensThePast(w: World, s: System, at: i64, req: Request)
    requires Ready(w, s)
    ensures ImmutableUnderAnyClock(w, s, at) <==> at < Timestamps.FIRST_SECOND
  {
    SyncedHasJournal(w, s);
    assert AllReplay(s.records) by { GenuineReplays(w, s.records); }
    hide Sound, Synced, Signing, Run, ReplayingRun, Genuine, AllReplay;
    if at < Timestamps.FIRST_SECOND {
      forall es, passportId | Run(w, s, es).Some? && ReplayingRun(w, s, es)
        ensures Listed(Run(w, s, es).value.records, passportId, Some(at)) == Listed(s.records, passportId, Some(at))
      {
        ReplayingKeeps(w, s, es);
        NothingListed(s.records, passportId, at);
        NothingListed(Run(w, s, es).value.records, passportId, at);
      }
    } else {
      var stamp := if at <= Timestamps.LAST_SECOND then at else Timestamps.LAST_SECOND;
      var r := PostsAt(w, s, req, stamp);
      OneMoreListed(s.records, r, at);
    }
  }

  lemma GenuineReplays(w: World, rs: seq<SnapshotRecord>)
    requires Genuine(w, rs)
    ensures AllReplay(rs)
  {}

  /** With any clock and any record, no catalogue at all is final. */
  lemma NoCatalogueIsFinal(w: World, s: System, at: i64, req: Request) returns (es: seq<Event>)
    requires Ready(w, s)
    ensures Changes(w, s, es, at)
  {
    hide Ready, Run, PostAt;
    es := PostAt(req, at);
    var r := PostsAt(w, s, req, at);
    OneMoreListed(s.records, r, at);
  }

  /** The hypotheses are met: an empty archive opens ready, with nothing exposed and
      a clean journal. */
  lemma FreshArchiveIsReady(w: World, clock: i64)
    requires Signing(w)
    ensures var s := Idle([], Disk(Some([]), map[]), clock);
            && Run(w, Initial(clock), [Restart]) == Some(s) && Ready(w, s) && !Exposed(s)
            && Clean(w.service, s.disk.journal.value, s.records)
  {
    hide Sound;
    var s := Idle([], Disk(Some([]), map[]), clock);
    InitialIsSound(w, clock);
    Opens(w, clock);
    RunKeepsSound(w, Initial(clock), [Restart]);
    ReplayNothing(w.service);
    NoLines();
  }
}
