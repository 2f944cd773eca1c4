/** Runs made of one request at a time: the handler's five events in a row, an idle
    service that answers a post, stops and starts again. */
module Requests {
  import opened Basics
  import opened Records
  import opened JournalLines
  import opened Journal
  import opened Store
  import opened Reopening
  import opened Ingest
  import opened Archive
  import Timestamps

  // ---- Runs in parts --------------------------------------------------------

  lemma RunStep(w: World, s: System, e: Event, es: seq<Event>)
    requires Step(w, s, e).Some?
    ensures Run(w, s, [e] + es) == Run(w, Step(w, s, e).value, es)
  {
    hide Step;
    assert ([e] + es)[0] == e && ([e] + es)[1..] == es;
  }

  lemma RunNothing(w: World, s: System)
    ensures Run(w, s, []) == Some(s)
  {}

  lemma {:induction false} RunAppend(w: World, s: System, a: seq<Event>, b: seq<Event>)
    requires Run(w, s, a).Some?
    ensures Run(w, s, a + b) == Run(w, Run(w, s, a).value, b)
    decreases |a|
  {
    hide Step;
    if a == [] {
      assert a + b == b;
    } else {
      assert (a + b)[1..] == a[1..] + b;
      RunAppend(w, Step(w, s, a[0]).value, a[1..], b);
    }
  }

  // ---- A create that nothing interrupts -------------------------------------

  /** A request's events up to the point where it is sealed. */
  function SealEvents(t: nat, req: Request, reply: LogReply): seq<Event> {
    [Arrive(t, req)] + ([Acquire(t)] + ([Reserve(t)] + ([Answer(t, reply)] + [])))
  }

  /** The state in which the request is about to append. */
  function SealedBy(s: System, t: nat, r: SnapshotRecord): System {
    s.(tasks := s.tasks[t := Sealed(r)], holder := Some(t))
  }

  lemma SealsAlone(w: World, s: System, t: nat, req: Request, reply: LogReply)
    requires s.up && s.holder == None && t !in s.tasks && |s.records| < U64_LIMIT
    ensures var r := Notarized(w.service, w.notary, Reserved(req, |s.records|, s.clock), reply);
            Run(w, s, SealEvents(t, req, reply))
            == Some(if r.None? then s else SealedBy(s, t, r.value))
  {
    hide Notarized, Run;
    var draft := Reserved(req, |s.records|, s.clock);
    var a := s.(tasks := s.tasks[t := Waiting(req)]);
    var b := a.(tasks := a.tasks[t := Holding(req)], holder := Some(t));
    var d := b.(tasks := b.tasks[t := Pending(draft)]);
    RunStep(w, s, Arrive(t, req), [Acquire(t)] + ([Reserve(t)] + ([Answer(t, reply)] + [])));
    RunStep(w, a, Acquire(t), [Reserve(t)] + ([Answer(t, reply)] + []));
    RunStep(w, b, Reserve(t), [Answer(t, reply)] + []);
    RunStep(w, d, Answer(t, reply), []);
    var n := AfterAnswer(w, d, t, reply);
    RunNothing(w, n);
    var r := Notarized(w.service, w.notary, draft, reply);
    if r.None? {
      assert d.tasks - {t} == s.tasks;
    } else {
      assert d.tasks[t := Sealed(r.value)] == s.tasks[t := Sealed(r.value)];
    }
  }

  /** Run alone, a request's five events amount to one call of the handler: the
      same records, the same disk, the same answer. */
  lemma HandlerIsARun(w: World, s: System, t: nat, req: Request, reply: LogReply)
    requires s.up && s.holder == None && t !in s.tasks && |s.records| < U64_LIMIT
    requires w.paths.journaled ==> s.disk.journal.Some?
    ensures var r := Notarized(w.service, w.notary, Reserved(req, |s.records|, s.clock), reply);
            && Run(w, s, SealEvents(t, req, reply)) == Some(if r.None? then s else SealedBy(s, t, r.value))
            && (r.Some? ==>
                  && ResponseTo(w, SealedBy(s, t, r.value), Append(t))
                     == Some(CreatedBody(SnapshotIdOf(|s.records|), s.clock, BodyBytes(w.service, r.value)))
                  && Run(w, s, SealEvents(t, req, reply) + [Append(t)])
                     == Some(s.(records := s.records + [r.value],
                                disk := Appended(w.service, w.paths, s.disk, r.value))))
  {
    hide Notarized, Run, Appended, Created, DigestMatches, SnapshotIdOf, Outcome, Commitment, SealEvents, BodyBytes;
    SealsAlone(w, s, t, req, reply);
    var draft := Reserved(req, |s.records|, s.clock);
    var r := Notarized(w.service, w.notary, draft, reply);
    if r.Some? {
      NotarizedIsCreated(w.service, w.notary, draft, reply);
      CreatedId(w, r.value);
      var sealed := SealedBy(s, t, r.value);
      RunAppend(w, s, SealEvents(t, req, reply), [Append(t)]);
      RunStep(w, sealed, Append(t), []);
      assert [Append(t)] + [] == [Append(t)];
      assert sealed.tasks - {t} == s.tasks;
      RunNothing(w, AfterAppend(w, sealed, t));
    }
  }

  /** A create that is cancelled where it awaits, at the lock or at the log, leaves no
      trace: no record, no byte, no number taken, the lock free. */
  lemma CancelLeavesNoTrace(w: World, s: System, t: nat, req: Request)
    requires s.up && t !in s.tasks && s.holder != Some(t)
    ensures Run(w, s, [Arrive(t, req)] + ([Cancel(t)] + [])) == Some(s)
    ensures s.holder == None && |s.records| < U64_LIMIT ==>
              Run(w, s, [Arrive(t, req)] + ([Acquire(t)] + ([Reserve(t)] + ([Cancel(t)] + [])))) == Some(s)
  {
    hide Run, Reserved;
    var a := s.(tasks := s.tasks[t := Waiting(req)]);
    assert a.tasks - {t} == s.tasks;
    RunNothing(w, s);
    RunStep(w, s, Arrive(t, req), [Cancel(t)] + []);
    RunStep(w, a, Cancel(t), []);
    if s.holder == None && |s.records| < U64_LIMIT {
      var b := a.(tasks := a.tasks[t := Holding(req)], holder := Some(t));
      var d := b.(tasks := b.tasks[t := Pending(Reserved(req, |s.records|, s.clock))]);
      RunStep(w, s, Arrive(t, req), [Acquire(t)] + ([Reserve(t)] + ([Cancel(t)] + [])));
      RunStep(w, a, Acquire(t), [Reserve(t)] + ([Cancel(t)] + []));
      RunStep(w, b, Reserve(t), [Cancel(t)] + []);
      RunStep(w, d, Cancel(t), []);
      assert d.tasks - {t} == s.tasks;
    }
  }

  // ---- An idle service ------------------------------------------------------

  const NO_LOG := Failed("log unreachable")

  /** Up, with nothing in flight. */
  function Idle(rs: seq<SnapshotRecord>, d: Disk, clock: i64): System {
    System(true, rs, d, clock, map[], None)
  }

  /** One request from its arrival to its answer. */
  function Post(req: Request): seq<Event> {
    SealEvents(0, req, NO_LOG) + [Append(0)]
  }

  /** A journal is configured and the signer works. */
  ghost predicate Signing(w: World) {
    w.paths.journaled && forall m :: w.service.sign(w.notary, m).Some?
  }

  /** The record a request is sealed into. */
  function SealedFor(w: World, req: Request, n: u64, clock: i64): Option<SnapshotRecord> {
    Notarized(w.service, w.notary, Reserved(req, n, clock), NO_LOG)
  }

  lemma SealingWorks(w: World, req: Request, n: u64, clock: i64)
    requires Signing(w)
    ensures var r := SealedFor(w, req, n, clock);
            && r.Some? && Created(w.service, w.notary, r.value) && DigestMatches(w.service, r.value)
            && ReceiptWellFormed(r.value) && r.value.seqNo == n && r.value.notarizedAt == clock
            && r.value.passportId == req.passportId && r.value.snapshotId == SnapshotIdOf(n)
    ensures Timestamps.Printable(clock) ==> Replayable(SealedFor(w, req, n, clock).value)
  {
    hide SnapshotIdOf, DigestMatches, Statement, Core, Commitment, BodyBytes, Created, Replayable, ReceiptWellFormed;
    hide Timestamps.Printable;
    var draft := Reserved(req, n, clock);
    SealSucceeds(w.service, w.notary, draft.(anchoring := Outcome(NO_LOG, Commitment(w.service, draft))));
    NotarizedIsCreated(w.service, w.notary, draft, NO_LOG);
    CreatedIsReplayableIff(w.service, w.notary, draft, NO_LOG);
    CreatedId(w, SealedFor(w, req, n, clock).value);
  }

  lemma SealSucceeds(c: Service, key: Key, r: SnapshotRecord)
    requires c.sign(key, Statement(r)).Some?
    ensures Seal(c, key, r).Some? && Seal(c, key, r).value.passportId == r.passportId
  {
    hide Statement, Core, BodyBytes;
  }

  /** An empty archive opens idle. */
  lemma Opens(w: World, clock: i64)
    requires w.paths.journaled
    ensures Run(w, Initial(clock), [Restart]) == Some(Idle([], Disk(Some([]), map[]), clock))
  {
    RunStep(w, Initial(clock), Restart, []);
    assert [Restart] + [] == [Restart];
    RunNothing(w, AfterRestart(w, Initial(clock)));
  }

  /** A post to an idle service is answered and leaves it idle. */
  lemma Posts(w: World, rs: seq<SnapshotRecord>, d: Disk, clock: i64, req: Request)
    requires Signing(w) && |rs| < U64_LIMIT && d.journal.Some?
    ensures var s, r := Idle(rs, d, clock), SealedFor(w, req, |rs|, clock);
            && r.Some?
            && var sealed, n := SealedBy(s, 0, r.value),
              Idle(rs + [r.value], Appended(w.service, w.paths, d, r.value), clock);
            && Run(w, s, SealEvents(0, req, NO_LOG)) == Some(sealed)
            && ResponseTo(w, sealed, Append(0))
               == Some(CreatedBody(SnapshotIdOf(|rs|), clock, BodyBytes(w.service, r.value)))
            && Step(w, sealed, Append(0)) == Some(n)
            && Run(w, s, Post(req)) == Some(n)
  {
    hide SnapshotIdOf, Appended, Notarized, SealEvents, DigestMatches, Created, BodyBytes, ReceiptWellFormed;
    hide Replayable;
    var s := Idle(rs, d, clock);
    SealingWorks(w, req, |rs|, clock);
    HandlerIsARun(w, s, 0, req, NO_LOG);
    var r := SealedFor(w, req, |rs|, clock).value;
    assert map[0 := Sealed(r)] - {0} == map[];
  }

  /** A stop and a restart. */
  lemma StopsAndStarts(w: World, s: System)
    requires s.up
    ensures Run(w, s, [Stop, Restart]) == Some(AfterRestart(w, Down(s, s.disk)))
  {
    hide AfterRestart;
    RunStep(w, s, Stop, [Restart] + []);
    RunStep(w, Down(s, s.disk), Restart, []);
    assert [Stop] + ([Restart] + []) == [Stop, Restart];
    RunNothing(w, AfterRestart(w, Down(s, s.disk)));
  }

  lemma OpensInPlace(c: Service, p: Paths, d: Disk, rs: seq<SnapshotRecord>)
    requires p.journaled && d.journal.Some? && Survivors(c, d) == Some(rs)
    requires p.filed ==> Materialized(c, d.files, rs)
    ensures Open(c, p, d).records == Some(rs) && Open(c, p, d).disk == d
  {
    hide Replay, Verify, Materialized;
    if p.filed { VerifyKeepsMaterialized(c, d.files, rs); }
  }

  /** Memory and disk agree. */
  ghost predicate Synced(w: World, s: System) {
    s.up && Survivors(w.service, s.disk) == Some(s.records)
  }

  /** Stopped and started again, a service in sync comes back idle and in sync. */
  lemma Reopens(w: World, s: System)
    requires Sound(w, s) && Synced(w, s)
    ensures Run(w, s, [Stop, Restart]) == Some(Idle(s.records, s.disk, s.clock))
  {
    hide Authentic, Serialized, Survivors, Materialized, Open, Genuine;
    StopsAndStarts(w, s);
    OpensInPlace(w.service, w.paths, s.disk, s.records);
  }
}
