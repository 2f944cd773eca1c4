/** The running service as a state machine: create requests interleave under
    the mutation lock and may be cancelled where they await, the clock shows any
    instant, and the process may stop at any moment, even inside an append or
    inside the open that follows (src/api.rs, src/store.rs). */
module Archive {
  import opened Basics
  import opened Records
  import opened JournalLines
  import opened Journal
  import opened Recovery
  import opened Store
  import opened Reopening
  import opened Ingest
  import opened SnapshotIds

  /** What stays fixed over a run. */
  datatype World = World(service: Service, notary: Key, paths: Paths)

  /** A create request between two of its steps. */
  datatype Task =
    | Waiting(req: Request)             // awaits the mutation lock
    | Holding(req: Request)             // holds it, nothing reserved yet
    | Pending(draft: SnapshotRecord)    // awaits the log
    | Sealed(record: SnapshotRecord)    // about to append

  /** While the process is down, `records` is what it last held in memory. */
  datatype System = System(up: bool, records: seq<SnapshotRecord>, disk: Disk, clock: i64, tasks: map<nat, Task>,
      holder: Option<nat>)

  datatype Event =
    | Arrive(t: nat, req: Request)
    | Acquire(t: nat)
    | Reserve(t: nat)
    | Answer(t: nat, reply: LogReply)
    | Append(t: nat)
    | Cancel(t: nat)
    | Tick(now: i64)
    | Stop
    | Crash(t: nat, cut: Cut)       // stop inside an append
    | Restart
    | StopOpening(progress: Progress)

  predicate InFlight(s: System, t: nat) {
    s.up && t in s.tasks
  }

  /** The request is over and its lock guard dropped. */
  function Finished(s: System, t: nat): System {
    s.(tasks := s.tasks - {t}, holder := if s.holder == Some(t) then None else s.holder)
  }

  function Down(s: System, disk: Disk): System {
    s.(up := false, disk := disk, tasks := map[], holder := None)
  }

  predicate CanAppend(w: World, s: System, t: nat) {
    InFlight(s, t) && s.tasks[t].Sealed? && (w.paths.journaled ==> s.disk.journal.Some?)
  }

  function AfterAppend(w: World, s: System, t: nat): System
    requires CanAppend(w, s, t)
  {
    var r := s.tasks[t].record;
    if AppendError(w.service, s.records, r).Some? then Finished(s, t)
    else Finished(s, t).(records := s.records + [r], disk := Appended(w.service, w.paths, s.disk, r))
  }

  predicate CanCrash(w: World, s: System, t: nat, cut: Cut) {
    && CanAppend(w, s, t) && AppendError(w.service, s.records, s.tasks[t].record) == None
    && Possible(w.service, w.paths, s.tasks[t].record, cut)
  }

  function AfterCrash(w: World, s: System, t: nat, cut: Cut): System
    requires CanCrash(w, s, t, cut)
  {
    Down(s, CutAppend(w.service, w.paths, s.disk, s.tasks[t].record, cut))
  }

  function AfterRestart(w: World, s: System): System {
    var o := Open(w.service, w.paths, s.disk);
    if o.records.None? then s.(disk := o.disk) else s.(up := true, records := o.records.value, disk := o.disk)
  }

  function AfterAnswer(w: World, s: System, t: nat, reply: LogReply): System
    requires InFlight(s, t) && s.tasks[t].Pending?
  {
    match Notarized(w.service, w.notary, s.tasks[t].draft, reply)
    case None => Finished(s, t)
    case Some(r) => s.(tasks := s.tasks[t := Sealed(r)])
  }

  /** The state after an event, None where it cannot happen. */
  function Step(w: World, s: System, e: Event): Option<System> {
    match e
    case Arrive(t, req) =>
      if s.up && t !in s.tasks then Some(s.(tasks := s.tasks[t := Waiting(req)])) else None
    case Acquire(t) =>
      if InFlight(s, t) && s.tasks[t].Waiting? && s.holder == None
      then Some(s.(tasks := s.tasks[t := Holding(s.tasks[t].req)], holder := Some(t))) else None
    case Reserve(t) =>
      if InFlight(s, t) && s.tasks[t].Holding? && |s.records| < U64_LIMIT
      then Some(s.(tasks := s.tasks[t := Pending(Reserved(s.tasks[t].req, |s.records|, s.clock))])) else None
    case Answer(t, reply) =>
      if InFlight(s, t) && s.tasks[t].Pending? then Some(AfterAnswer(w, s, t, reply)) else None
    case Append(t) =>
      if CanAppend(w, s, t) then Some(AfterAppend(w, s, t)) else None
    case Cancel(t) =>
      if InFlight(s, t) && (s.tasks[t].Waiting? || s.tasks[t].Pending?) then Some(Finished(s, t)) else None
    case Tick(now) =>
      Some(s.(clock := now))
    case Stop =>
      if s.up then Some(Down(s, s.disk)) else None
    case Crash(t, cut) =>
      if CanCrash(w, s, t, cut) then Some(AfterCrash(w, s, t, cut)) else None
    case Restart =>
      if s.up then None else Some(AfterRestart(w, s))
    case StopOpening(g) =>
      if !s.up && CanStop(w.service, w.paths, s.disk, g)
      then Some(s.(disk := StoppedOpen(w.service, w.paths, s.disk, g))) else None
  }

  /** The response an event completes a create with. */
  function ResponseTo(w: World, s: System, e: Event): Option<Response> {
    match e
    case Append(t) =>
      if CanAppend(w, s, t) then Some(CreateResponse(w.service, s.records, s.tasks[t].record)) else None
    case Answer(t, reply) =>
      if InFlight(s, t) && s.tasks[t].Pending? && Notarized(w.service, w.notary, s.tasks[t].draft, reply).None?
      then Some(ServerError) else None
    case _ => None
  }

  function Run(w: World, s: System, es: seq<Event>): Option<System>
    decreases |es|
  {
    if es == [] then Some(s)
    else match Step(w, s, es[0]) case None => None case Some(n) => Run(w, n, es[1..])
  }

  /** Nothing stored, nothing running. */
  function Initial(clock: i64): System {
    System(false, [], Disk(None, map[]), clock, map[], None)
  }

  // ---- Serialized ingest ----------------------------------------------------

  predicate PastLock(task: Task) {
    !task.Waiting?
  }

  /** One task past the lock, the one holding it; what it reserved is still next. */
  ghost predicate Serialized(w: World, s: System) {
    && (forall t <- s.tasks :: PastLock(s.tasks[t]) <==> s.holder == Some(t))
    && (s.holder.Some? ==> s.holder.value in s.tasks)
    && (!s.up ==> s.tasks == map[])
    && (forall t <- s.tasks :: InOrder(w, s.records, s.tasks[t]))
  }

  ghost predicate InOrder(w: World, rs: seq<SnapshotRecord>, task: Task) {
    match task
    case Pending(draft) => draft.seqNo == |rs| && Draftable(draft)
    case Sealed(r) => r.seqNo == |rs| && Created(w.service, w.notary, r)
    case _ => true
  }

  lemma FinishedIsSerialized(w: World, s: System, t: nat)
    requires Serialized(w, s) && t in s.tasks
    ensures Serialized(w, Finished(s, t))
    ensures PastLock(s.tasks[t]) ==> AllWaiting(Finished(s, t))
  {
    hide InOrder;
  }

  predicate AllWaiting(s: System) {
    forall t <- s.tasks :: s.tasks[t].Waiting?
  }

  /** With only waiting tasks, any records are in order. */
  lemma WaitingIsSerialized(w: World, s: System, rs: seq<SnapshotRecord>, disk: Disk)
    requires Serialized(w, s) && AllWaiting(s)
    ensures Serialized(w, s.(records := rs, disk := disk))
  {}

  /** A task that moves on while it keeps or lacks the lock. */
  lemma MovedIsSerialized(w: World, s: System, t: nat, task: Task)
    requires Serialized(w, s) && s.up && t in s.tasks && PastLock(s.tasks[t]) == PastLock(task)
        && InOrder(w, s.records, task)
    ensures Serialized(w, s.(tasks := s.tasks[t := task]))
  {
    hide InOrder;
  }

  lemma ArrivedIsSerialized(w: World, s: System, t: nat, req: Request)
    requires Serialized(w, s) && s.up && t !in s.tasks
    ensures Serialized(w, s.(tasks := s.tasks[t := Waiting(req)]))
  {
    assert InOrder(w, s.records, Waiting(req));
    hide InOrder;
  }

  lemma AcquiredIsSerialized(w: World, s: System, t: nat, req: Request)
    requires Serialized(w, s) && s.up && t in s.tasks && s.tasks[t].Waiting? && s.holder == None
    ensures Serialized(w, s.(tasks := s.tasks[t := Holding(req)], holder := Some(t)))
  {
    assert InOrder(w, s.records, Holding(req));
    hide InOrder;
  }

  lemma PendingDraft(w: World, s: System, t: nat)
    requires Serialized(w, s) && t in s.tasks && s.tasks[t].Pending?
    ensures s.tasks[t].draft.seqNo == |s.records| && Draftable(s.tasks[t].draft)
  {
    assert InOrder(w, s.records, s.tasks[t]);
  }

  lemma PendingIsPastLock(task: Task)
    ensures task.Pending? || task.Sealed? ==> PastLock(task)
  {}

  lemma SealedInOrder(w: World, rs: seq<SnapshotRecord>, r: SnapshotRecord)
    requires r.seqNo == |rs| && Created(w.service, w.notary, r)
    ensures InOrder(w, rs, Sealed(r))
  {}

  lemma AnsweredIsSerialized(w: World, s: System, t: nat, reply: LogReply)
    requires Serialized(w, s) && InFlight(s, t) && s.tasks[t].Pending?
    ensures Serialized(w, AfterAnswer(w, s, t, reply))
  {
    hide Created, Notarized, SnapshotIdOf, Serialized, InOrder, Draftable, PastLock;
    hide Outcome, DigestMatches, Commitment, Finished;
    assert PastLock(s.tasks[t]) by { PendingIsPastLock(s.tasks[t]); }
    PendingDraft(w, s, t);
    var draft := s.tasks[t].draft;
    if Notarized(w.service, w.notary, draft, reply).Some? {
      NotarizedIsCreated(w.service, w.notary, draft, reply);
      var r := Notarized(w.service, w.notary, draft, reply).value;
      SealedInOrder(w, s.records, r);
      PendingIsPastLock(Sealed(r));
      MovedIsSerialized(w, s, t, Sealed(r));
    } else {
      FinishedIsSerialized(w, s, t);
    }
  }

  lemma AppendedIsSerialized(w: World, s: System, t: nat)
    requires Serialized(w, s) && CanAppend(w, s, t)
    ensures Serialized(w, AfterAppend(w, s, t)) && AllWaiting(AfterAppend(w, s, t))
  {
    hide AppendError, Appended, Serialized;
    FinishedIsSerialized(w, s, t);
    var n := AfterAppend(w, s, t);
    WaitingIsSerialized(w, Finished(s, t), n.records, n.disk);
  }

  lemma SerializedStep(w: World, s: System, e: Event)
    requires Serialized(w, s) && Step(w, s, e).Some?
    ensures Serialized(w, Step(w, s, e).value)
  {
    hide AfterAnswer, AfterAppend, CutAppend, Open, InOrder, CanCrash, CanStop, StoppedOpen, SnapshotIdOf;
    match e {
      case Arrive(t, req) => ArrivedIsSerialized(w, s, t, req);
      case Acquire(t) => AcquiredIsSerialized(w, s, t, s.tasks[t].req);
      case Reserve(t) =>
        var draft := Reserved(s.tasks[t].req, |s.records|, s.clock);
        assert InOrder(w, s.records, Pending(draft)) by { ReservedInOrder(w, s.records, s.tasks[t].req, s.clock); }
        MovedIsSerialized(w, s, t, Pending(draft));
      case Answer(t, reply) => AnsweredIsSerialized(w, s, t, reply);
      case Append(t) => AppendedIsSerialized(w, s, t);
      case Cancel(t) => FinishedIsSerialized(w, s, t);
      case _ =>
    }
  }

  lemma ReservedInOrder(w: World, rs: seq<SnapshotRecord>, req: Request, now: i64)
    requires |rs| < U64_LIMIT
    ensures InOrder(w, rs, Pending(Reserved(req, |rs|, now)))
  {}

  lemma {:induction false} SerializedRun(w: World, s: System, es: seq<Event>)
    requires Serialized(w, s) && Run(w, s, es).Some?
    ensures Serialized(w, Run(w, s, es).value)
    decreases |es|
  {
    hide Step, Serialized;
    if es == [] {
    } else {
      SerializedStep(w, s, es[0]);
      SerializedRun(w, Step(w, s, es[0]).value, es[1..]);
    }
  }

  /** In every run, with any interleaving, cancellation, crash or restart: at
      most one create is past the lock, what it reserved is still the next
      number, and its append neither conflicts nor fails. */
  lemma IngestIsSerialized(w: World, clock: i64, es: seq<Event>, t: nat, u: nat)
    requires Run(w, Initial(clock), es).Some?
    ensures var s := Run(w, Initial(clock), es).value;
            && (t in s.tasks && u in s.tasks && PastLock(s.tasks[t]) && PastLock(s.tasks[u]) ==> t == u)
            && (t in s.tasks && s.tasks[t].Pending? ==> s.tasks[t].draft.seqNo == |s.records|)
            && (t in s.tasks && s.tasks[t].Sealed? ==>
                  var r := s.tasks[t].record;
                  && AppendError(w.service, s.records, r) == None
                  && r.snapshotId == SnapshotIdOf(|s.records|)
                  && CreateResponse(w.service, s.records, r)
                    == CreatedBody(r.snapshotId, r.notarizedAt, BodyBytes(w.service, r)))
  {
    hide Run, DigestMatches, BodyBytes, SnapshotIdOf, Created;
    SerializedRun(w, Initial(clock), es);
    var s := Run(w, Initial(clock), es).value;
    if t in s.tasks {
      assert InOrder(w, s.records, s.tasks[t]);
      if s.tasks[t].Sealed? { CreatedId(w, s.tasks[t].record); }
    }
  }

  // ---- What every run keeps -------------------------------------------------

  /** Records as the service creates them, numbered from 0. */
  ghost predicate Authentic(w: World, rs: seq<SnapshotRecord>) {
    Numbered(rs) && forall r <- rs :: Created(w.service, w.notary, r)
  }

  /** Authentic, and fit to come back from a journal. */
  ghost predicate Genuine(w: World, rs: seq<SnapshotRecord>) {
    Authentic(w, rs) && forall r <- rs :: Replayable(r)
  }

  /** What the journal yields, if it reads, is genuine, and while the service is up
      no more than what memory holds. A journal that no longer reads has at least
      its last newline. The files are those of the records in memory. */
  ghost predicate Recorded(w: World, s: System) {
    && (s.up ==> s.disk.journal.Some? && (w.paths.filed ==> Materialized(w.service, s.disk.files, s.records)))
    && (forall all :: Survivors(w.service, s.disk) == Some(all) ==> Genuine(w, all) && (s.up ==> all <= s.records))
    && (s.up && Survivors(w.service, s.disk) == None ==> Terminated(s.disk.journal.value))
  }

  /** The invariant of every run, however careless. */
  ghost predicate Sound(w: World, s: System) {
    && w.paths.journaled
    && Serialized(w, s)
    && Authentic(w, s.records)
    && Recorded(w, s)
  }

  lemma InitialIsSound(w: World, clock: i64)
    requires w.paths.journaled
    ensures Sound(w, Initial(clock))
  {}

  lemma CreatedId(w: World, r: SnapshotRecord)
    requires Created(w.service, w.notary, r)
    ensures r.snapshotId == SnapshotIdOf(r.seqNo) && ReceiptWellFormed(r) && WellShaped(r.anchoring)
    ensures DigestMatches(w.service, r)
  {
    CreatedDigest(w.service, w.notary, r);
  }

  lemma NumberedMore(rs: seq<SnapshotRecord>, r: SnapshotRecord)
    requires Numbered(rs) && r.seqNo == |rs| && r.snapshotId == SnapshotIdOf(r.seqNo)
    ensures Numbered(rs + [r])
  {
    hide SnapshotIdOf;
  }

  lemma AuthenticMore(w: World, rs: seq<SnapshotRecord>, r: SnapshotRecord)
    requires Authentic(w, rs) && Created(w.service, w.notary, r) && r.seqNo == |rs|
    ensures Authentic(w, rs + [r])
  {
    hide Created, Numbered, SnapshotIdOf, DigestMatches, WellShaped, ReceiptWellFormed;
    CreatedId(w, r);
    NumberedMore(rs, r);
    assert forall s <- rs + [r] :: s in rs || s == r;
  }

  lemma GenuineMore(w: World, rs: seq<SnapshotRecord>, r: SnapshotRecord)
    requires Genuine(w, rs) && Created(w.service, w.notary, r) && Replayable(r) && r.seqNo == |rs|
    ensures Genuine(w, rs + [r])
  {
    hide Authentic, Created, Replayable;
    AuthenticMore(w, rs, r);
    assert forall s <- rs + [r] :: s in rs || s == r;
  }

  lemma GenuinePrefix(w: World, rs: seq<SnapshotRecord>, all: seq<SnapshotRecord>)
    requires Genuine(w, all) && rs <= all
    ensures Genuine(w, rs)
  {
    hide Created, Replayable, SnapshotIdOf;
    forall i | 0 <= i < |rs| ensures rs[i].seqNo == i && rs[i].snapshotId == SnapshotIdOf(rs[i].seqNo) {
      assert all[i].seqNo == i && all[i] == rs[i];
    }
    assert forall r <- rs :: r in all;
  }

  lemma NumberedId(rs: seq<SnapshotRecord>, s: SnapshotRecord)
    requires Numbered(rs) && s in rs
    ensures s.seqNo < |rs| && rs[s.seqNo] == s && s.snapshotId == SnapshotIdOf(s.seqNo)
  {
    hide SnapshotIdOf;
    var i :| 0 <= i < |rs| && rs[i] == s;
    assert rs[i].seqNo == i;
  }

  lemma NumberedAreDistinct(rs: seq<SnapshotRecord>)
    requires Numbered(rs)
    ensures DistinctIds(rs)
  {
    hide SnapshotIdOf, Numbered;
    forall s, t | s in rs && t in rs && s.snapshotId == t.snapshotId ensures s == t {
      NumberedId(rs, s);
      NumberedId(rs, t);
      IdsAreInjective(s.seqNo, t.seqNo);
    }
  }

  lemma DistinctMore(rs: seq<SnapshotRecord>, r: SnapshotRecord)
    requires DistinctIds(rs) && forall s <- rs :: s.snapshotId != r.snapshotId
    ensures DistinctIds(rs + [r]) && r !in rs
  {
    assert forall s <- rs + [r] :: s in rs || s == r;
  }

  /** The next record's id is new, and no two records share one. */
  lemma IdsAreFresh(w: World, rs: seq<SnapshotRecord>, r: SnapshotRecord)
    requires Numbered(rs) && Created(w.service, w.notary, r) && r.seqNo >= |rs|
    ensures forall s <- rs :: s.snapshotId != r.snapshotId
    ensures DistinctIds(rs + [r]) && r !in rs
  {
    hide Created, SnapshotIdOf, Numbered, DistinctIds;
    CreatedId(w, r);
    forall s | s in rs ensures s.snapshotId != r.snapshotId {
      NumberedId(rs, s);
      if s.snapshotId == r.snapshotId { IdsAreInjective(s.seqNo, r.seqNo); }
    }
    assert DistinctIds(rs) by { NumberedAreDistinct(rs); }
    DistinctMore(rs, r);
  }

  /** What the invariant gives the append in progress. */
  lemma SealedFacts(w: World, s: System, t: nat)
    requires Sound(w, s) && InFlight(s, t) && s.tasks[t].Sealed?
    ensures var r := s.tasks[t].record;
            && Created(w.service, w.notary, r) && r.seqNo == |s.records|
            && ReceiptWellFormed(r) && WellShaped(r.anchoring) && DigestMatches(w.service, r)
            && AppendError(w.service, s.records, r) == None
            && w.paths.journaled && s.disk.journal.Some?
  {
    hide Created, SnapshotIdOf, DigestMatches, Replay, ReceiptWellFormed, WellShaped, Materialized, Authentic, Genuine;
    assert InOrder(w, s.records, s.tasks[t]);
    CreatedId(w, s.tasks[t].record);
  }

  /** After any part of an append the journal yields genuine records, none but those
      of memory and the appended one, or no longer reads. */
  lemma PartYields(w: World, s: System, t: nat, k: nat)
    requires Sound(w, s) && InFlight(s, t) && s.tasks[t].Sealed? && k <= |LineBytes(s.tasks[t].record)|
    ensures s.disk.journal.Some?
    ensures var b, r := s.disk.journal.value, s.tasks[t].record;
            var after := Replay(w.service, b + LineBytes(r)[..k]);
            && (after.Some? ==> Replay(w.service, b).Some? && Genuine(w, after.value))
            && (after.Some? ==> after.value <= s.records || (after.value == s.records + [r] && Replayable(r)))
  {
    hide Created, DigestMatches, Replayable, Replay, ReceiptWellFormed, WellShaped, Materialized, Authentic, Genuine;
    hide Serialized, LineBytes, InsideCharacter, WholeLine, Terminated, Lines, AppendError;
    SealedFacts(w, s, t);
    var b, r := s.disk.journal.value, s.tasks[t].record;
    if Replay(w.service, b) == None {
      NothingRevives(w.service, b, LineBytes(r)[..k]);
    } else {
      var rs := Replay(w.service, b).value;
      CrashDuringAppend(w.service, b, rs, r, k);
      ShapedWholeLine(w.service, rs, r);
      assert Survivors(w.service, s.disk) == Some(rs);
      if rs != [] { GenuinePrefix(w, rs[..|rs| - 1], rs); }
      if Replayable(r) && r.seqNo == |rs| { GenuineMore(w, rs, r); }
    }
  }

  lemma MaterializedMore(c: Service, files: Files, rs: seq<SnapshotRecord>, r: SnapshotRecord)
    requires Materialized(c, files, rs) && forall s <- rs :: s.snapshotId != r.snapshotId
    ensures Materialized(c, files[r.snapshotId := BodyBytes(c, r)], rs + [r])
  {
    hide BodyBytes;
  }

  lemma AppendIsRecorded(w: World, s: System, t: nat)
    requires Sound(w, s) && CanAppend(w, s, t)
    ensures var a := AfterAppend(w, s, t);
            && a.up && a.records == s.records + [s.tasks[t].record] && a.clock == s.clock
            && a.disk == Appended(w.service, w.paths, s.disk, s.tasks[t].record)
            && Authentic(w, a.records) && Recorded(w, a)
  {
    hide Created, DigestMatches, Replayable, Replay, ReceiptWellFormed, WellShaped, Materialized, Genuine, DistinctIds;
    hide Serialized, LineBytes, Terminated, AppendError, BodyBytes, SnapshotIdOf, Numbered;
    SealedFacts(w, s, t);
    var r := s.tasks[t].record;
    AuthenticMore(w, s.records, r);
    IdsAreFresh(w, s.records, r);
    PartYields(w, s, t, |LineBytes(r)|);
    assert LineBytes(r)[..|LineBytes(r)|] == LineBytes(r);
    AppendTerminates(s.disk.journal.value, r);
    if w.paths.filed { MaterializedMore(w.service, s.disk.files, s.records, r); }
  }

  /** What a stop inside an append leaves: no record but those of memory and the
      interrupted one. */
  lemma CrashYields(w: World, s: System, t: nat, cut: Cut)
    requires Sound(w, s) && CanCrash(w, s, t, cut)
    ensures var all, r := Survivors(w.service, AfterCrash(w, s, t, cut).disk), s.tasks[t].record;
            && AfterCrash(w, s, t, cut).disk.journal == Some(s.disk.journal.value + LineBytes(r)[..Written(r, cut)])
            && (all.Some? ==> Survivors(w.service, s.disk).Some? && Genuine(w, all.value))
            && (all.Some? ==> all.value <= s.records || (all.value == s.records + [r] && Replayable(r)))
  {
    hide Created, Replayable, Replay, Genuine, Recorded, Authentic, Serialized, LineBytes, AppendError, BodyBytes;
    hide ReceiptWellFormed, WellShaped, DigestMatches;
    SealedFacts(w, s, t);
    var r := s.tasks[t].record;
    PartYields(w, s, t, Written(r, cut));
    assert LineBytes(r)[..|LineBytes(r)|] == LineBytes(r);
  }

  lemma CrashIsRecorded(w: World, s: System, t: nat, cut: Cut)
    requires Sound(w, s) && CanCrash(w, s, t, cut)
    ensures Recorded(w, AfterCrash(w, s, t, cut)) && AfterCrash(w, s, t, cut).records == s.records
  {
    hide Sound, Replayable, Genuine, Survivors, Materialized, LineBytes, AppendError, CutAppend, Possible, Terminated;
    CrashYields(w, s, t, cut);
  }

  lemma RestartIsRecorded(w: World, s: System)
    requires Sound(w, s) && !s.up
    ensures Recorded(w, AfterRestart(w, s)) && Authentic(w, AfterRestart(w, s).records)
    ensures AfterRestart(w, s).up ==> Survivors(w.service, s.disk) == Some(AfterRestart(w, s).records)
    ensures AfterRestart(w, s).up ==> Survivors(w.service, AfterRestart(w, s).disk) == Some(AfterRestart(w, s).records)
  {
    hide Authentic, Survivors, Materialized, Serialized, Open, Terminated, Replayable;
    OpenYieldsSurvivors(w.service, w.paths, s.disk);
    OpenCreatesJournal(w.service, w.paths, s.disk);
    if Open(w.service, w.paths, s.disk).records.Some? { OpenIsIdempotent(w.service, w.paths, s.disk); }
  }

  lemma OpenCreatesJournal(c: Service, p: Paths, d: Disk)
    requires p.journaled
    ensures Open(c, p, d).records.Some? ==> Open(c, p, d).disk.journal.Some?
  {
    hide Replay, Verify;
  }

  lemma StoppedOpenIsRecorded(w: World, s: System, g: Progress)
    requires Sound(w, s) && !s.up && CanStop(w.service, w.paths, s.disk, g)
    ensures Recorded(w, s.(disk := StoppedOpen(w.service, w.paths, s.disk, g)))
  {
    hide Genuine, Survivors, Materialized, Serialized, Open, CanStop, StoppedOpen, Authentic, Terminated;
    StoppedOpenRecovers(w.service, w.paths, s.disk, g);
  }

  /** What is recorded depends neither on requests in flight nor on the lock nor on
      the clock, and going down asks for less. */
  lemma RecordedIgnoresTheRest(w: World, s: System, n: System)
    requires Recorded(w, s) && n.disk == s.disk && n.records == s.records && (n.up ==> s.up)
    ensures Recorded(w, n)
  {
    hide Genuine, Survivors, Materialized, Terminated;
  }

  /** The steps of a request before its append touch neither records nor disk. */
  lemma QuietStep(w: World, s: System, e: Event)
    requires Step(w, s, e).Some? && (e.Arrive? || e.Acquire? || e.Reserve? || e.Answer? || e.Cancel?)
    ensures var n := Step(w, s, e).value; n == s.(tasks := n.tasks, holder := n.holder)
  {
    hide Notarized, Reserved;
  }

  lemma StepIsRecorded(w: World, s: System, e: Event)
    requires Sound(w, s) && Step(w, s, e).Some?
    ensures Recorded(w, Step(w, s, e).value) && Authentic(w, Step(w, s, e).value.records)
  {
    hide Recorded, Authentic, Serialized, AppendError, Appended, CutAppend, Open, Notarized, Reserved, CanStop;
    hide StoppedOpen;
    var n := Step(w, s, e).value;
    match e {
      case Append(t) => AppendIsRecorded(w, s, t);
      case Crash(t, cut) => CrashIsRecorded(w, s, t, cut);
      case Restart => RestartIsRecorded(w, s);
      case StopOpening(g) => StoppedOpenIsRecorded(w, s, g);
      case Stop => RecordedIgnoresTheRest(w, s, n);
      case Tick(_) => RecordedIgnoresTheRest(w, s, n);
      case _ => QuietStep(w, s, e); hide Step; RecordedIgnoresTheRest(w, s, n);
    }
  }

  /** Every step keeps the invariant. */
  lemma StepKeepsSound(w: World, s: System, e: Event)
    requires Sound(w, s) && Step(w, s, e).Some?
    ensures Sound(w, Step(w, s, e).value)
  {
    hide Step, Recorded, Authentic, Serialized;
    SerializedStep(w, s, e);
    StepIsRecorded(w, s, e);
  }

  lemma {:induction false} RunKeepsSound(w: World, s: System, es: seq<Event>)
    requires Sound(w, s) && Run(w, s, es).Some?
    ensures Sound(w, Run(w, s, es).value)
    decreases |es|
  {
    hide Step, Sound;
    if es == [] {
    } else {
      StepKeepsSound(w, s, es[0]);
      RunKeepsSound(w, Step(w, s, es[0]).value, es[1..]);
    }
  }

  // ---- The journal only grows -----------------------------------------------

  predicate JournalGrew(d: Disk, e: Disk) {
    d.journal.Some? ==> e.journal.Some? && d.journal.value <= e.journal.value
  }

  lemma StepGrowsJournal(w: World, s: System, e: Event)
    requires w.paths.journaled && Step(w, s, e).Some?
    ensures JournalGrew(s.disk, Step(w, s, e).value.disk)
  {
    hide AppendError, LineBytes, BodyBytes, Verify, Replay, Notarized, Reserved;
    match e {
      case Crash(t, cut) => CrashGrowsJournal(w, s, t, cut);
      case _ =>
    }
  }

  lemma CrashGrowsJournal(w: World, s: System, t: nat, cut: Cut)
    requires w.paths.journaled && CanCrash(w, s, t, cut)
    ensures JournalGrew(s.disk, AfterCrash(w, s, t, cut).disk)
  {
    hide AppendError, LineBytes, BodyBytes;
  }

  // ---- Without a restart ----------------------------------------------------

  lemma StepInMemory(w: World, s: System, e: Event)
    requires Step(w, s, e).Some? && !e.Restart?
    ensures s.records <= Step(w, s, e).value.records
  {
    hide Notarized, AppendError, Appended, CutAppend, CanStop, StoppedOpen, Reserved;
  }

  /** Between two restarts records only grow by appending, with or without a
      journal and however careless the run. */
  lemma {:induction false} RunInMemory(w: World, s: System, es: seq<Event>)
    requires Run(w, s, es).Some? && forall e <- es :: !e.Restart?
    ensures s.records <= Run(w, s, es).value.records
    decreases |es|
  {
    hide Step;
    if es == [] {
    } else {
      StepInMemory(w, s, es[0]);
      RunInMemory(w, Step(w, s, es[0]).value, es[1..]);
    }
  }
}
