/** What was submitted is what is preserved: in every run each stored record carries
    one arrived request and the log's reply to it, and the document answered and
    served ever after shows them (src/api.rs). */
module Submissions {
  import opened Basics
  import opened Text
  import opened Json
  import opened Records
  import opened JournalLines
  import opened DocumentViews
  import opened Journal
  import opened Recovery
  import opened Store
  import opened Reopening
  import opened Ingest
  import opened Archive
  import opened Runs
  import Timestamps

  // ---- What arrived and what the log answered -------------------------------

  /** The request that arrived last as this task. */
  function ArrivedAs(es: seq<Event>, t: nat): Option<Request>
    decreases |es|
  {
    if es == [] then None else
    var e := es[|es| - 1];
    if e.Arrive? && e.t == t then Some(e.req) else ArrivedAs(es[..|es| - 1], t)
  }

  /** The log's last reply to this task. */
  function RepliedTo(es: seq<Event>, t: nat): Option<LogReply>
    decreases |es|
  {
    if es == [] then None else
    var e := es[|es| - 1];
    if e.Answer? && e.t == t then Some(e.reply) else RepliedTo(es[..|es| - 1], t)
  }

  lemma LastEvent(es: seq<Event>, e: Event, t: nat)
    ensures ArrivedAs(es + [e], t) == if e.Arrive? && e.t == t then Some(e.req) else ArrivedAs(es, t)
    ensures RepliedTo(es + [e], t) == if e.Answer? && e.t == t then Some(e.reply) else RepliedTo(es, t)
  {
    assert (es + [e])[..|es|] == es;
  }

  // ---- Requests in flight ---------------------------------------------------

  /** The record preserves the request that arrived as `t` and keeps the reply to it. */
  predicate Answers(c: Service, es: seq<Event>, t: nat, r: SnapshotRecord) {
    && ArrivedAs(es, t).Some? && Preserves(r, ArrivedAs(es, t).value)
    && RepliedTo(es, t).Some? && KeepsReply(c, r, RepliedTo(es, t).value)
  }

  /** A create in flight is still about the request it arrived with. */
  ghost predicate Carries(c: Service, es: seq<Event>, t: nat, task: Task) {
    match task
    case Waiting(req) => ArrivedAs(es, t) == Some(req)
    case Holding(req) => ArrivedAs(es, t) == Some(req)
    case Pending(draft) => exists req, n, now :: ArrivedAs(es, t) == Some(req) && draft == Reserved(req, n, now)
    case Sealed(r) => Answers(c, es, t, r)
  }

  ghost predicate AllCarry(w: World, es: seq<Event>, s: System) {
    forall t <- s.tasks :: Carries(w.service, es, t, s.tasks[t])
  }

  /** An event of another task, or one without a request, leaves a task as it was. */
  lemma CarriesOn(c: Service, es: seq<Event>, e: Event, t: nat, task: Task)
    requires Carries(c, es, t, task) && ((e.Arrive? || e.Answer?) ==> e.t != t)
    ensures Carries(c, es + [e], t, task)
  {
    hide KeepsReply, Preserves, Reserved;
    LastEvent(es, e, t);
  }

  lemma ReservedCarries(w: World, es: seq<Event>, s: System, t: nat)
    requires AllCarry(w, es, s) && t in s.tasks && s.tasks[t].Holding? && |s.records| < U64_LIMIT
    ensures Carries(w.service, es + [Reserve(t)], t, Pending(Reserved(s.tasks[t].req, |s.records|, s.clock)))
  {
    hide Reserved;
    LastEvent(es, Reserve(t), t);
    assert Carries(w.service, es, t, s.tasks[t]);
  }

  lemma AnsweredCarries(w: World, es: seq<Event>, s: System, t: nat, reply: LogReply)
    requires AllCarry(w, es, s) && t in s.tasks && s.tasks[t].Pending?
    ensures var r := Notarized(w.service, w.notary, s.tasks[t].draft, reply);
            r.Some? ==> Carries(w.service, es + [Answer(t, reply)], t, Sealed(r.value))
  {
    hide Reserved, Notarized, KeepsReply, Preserves;
    LastEvent(es, Answer(t, reply), t);
    assert Carries(w.service, es, t, s.tasks[t]);
    var draft := s.tasks[t].draft;
    var req, n, now :| ArrivedAs(es, t) == Some(req) && draft == Reserved(req, n, now);
    if Notarized(w.service, w.notary, draft, reply).Some? {
      NotarizedPreserves(w.service, w.notary, req, n, now, reply);
    }
  }

  /** The one task an event is about. */
  function Subject(e: Event): Option<nat> {
    match e
    case Arrive(t, _) => Some(t)
    case Acquire(t) => Some(t)
    case Reserve(t) => Some(t)
    case Answer(t, _) => Some(t)
    case Append(t) => Some(t)
    case Cancel(t) => Some(t)
    case Crash(t, _) => Some(t)
    case _ => None
  }

  /** The others stay as they are, or are gone. */
  lemma OthersStay(w: World, s: System, e: Event, u: nat)
    requires Step(w, s, e).Some? && Subject(e) != Some(u) && u in Step(w, s, e).value.tasks
    ensures u in s.tasks && Step(w, s, e).value.tasks[u] == s.tasks[u]
  {
    hide Notarized, AppendError, Appended, CutAppend, Possible, Open, CanStop, StoppedOpen, Reserved;
  }

  lemma SubjectCarries(w: World, es: seq<Event>, s: System, e: Event, t: nat)
    requires AllCarry(w, es, s) && Step(w, s, e).Some? && Subject(e) == Some(t) && t in Step(w, s, e).value.tasks
    ensures Carries(w.service, es + [e], t, Step(w, s, e).value.tasks[t])
  {
    hide Notarized, AppendError, Appended, CutAppend, Possible, Reserved, Carries;
    match e {
      case Arrive(_, req) => ArrivedCarries(w, es, t, req);
      case Acquire(_) => AcquiredCarries(w, es, s, t);
      case Reserve(_) => ReservedCarries(w, es, s, t);
      case Answer(_, reply) => AnsweredCarries(w, es, s, t, reply);
      case _ =>
    }
  }

  lemma ArrivedCarries(w: World, es: seq<Event>, t: nat, req: Request)
    ensures Carries(w.service, es + [Arrive(t, req)], t, Waiting(req))
  {
    LastEvent(es, Arrive(t, req), t);
  }

  lemma AcquiredCarries(w: World, es: seq<Event>, s: System, t: nat)
    requires AllCarry(w, es, s) && t in s.tasks && s.tasks[t].Waiting?
    ensures Carries(w.service, es + [Acquire(t)], t, Holding(s.tasks[t].req))
  {
    LastEvent(es, Acquire(t), t);
    assert Carries(w.service, es, t, s.tasks[t]);
  }

  lemma StepCarries(w: World, es: seq<Event>, s: System, e: Event)
    requires AllCarry(w, es, s) && Step(w, s, e).Some?
    ensures AllCarry(w, es + [e], Step(w, s, e).value)
  {
    hide Step, Carries, AllCarry;
    var n := Step(w, s, e).value;
    forall t | t in n.tasks ensures Carries(w.service, es + [e], t, n.tasks[t]) {
      if Subject(e) == Some(t) {
        SubjectCarries(w, es, s, e, t);
      } else {
        OthersStay(w, s, e, t);
        CarriedBefore(w, es, s, t);
        CarriesOn(w.service, es, e, t, s.tasks[t]);
      }
    }
    AllOfThem(w, es + [e], n);
  }

  lemma CarriedBefore(w: World, es: seq<Event>, s: System, t: nat)
    requires AllCarry(w, es, s) && t in s.tasks
    ensures Carries(w.service, es, t, s.tasks[t])
  {
    hide Carries;
  }

  lemma AllOfThem(w: World, es: seq<Event>, s: System)
    requires forall t <- s.tasks :: Carries(w.service, es, t, s.tasks[t])
    ensures AllCarry(w, es, s)
  {
    hide Carries;
  }

  // ---- Where the records come from ------------------------------------------

  /** Held in memory or still readable in the journal. */
  ghost predicate Stored(w: World, s: System, r: SnapshotRecord) {
    r in s.records || (Survivors(w.service, s.disk).Some? && r in Survivors(w.service, s.disk).value)
  }

  ghost predicate AboutToAppend(s: System, t: nat, r: SnapshotRecord) {
    t in s.tasks && s.tasks[t] == Sealed(r)
  }

  lemma AppendStores(w: World, s: System, t: nat, r: SnapshotRecord)
    requires Sound(w, s) && CanAppend(w, s, t) && Stored(w, AfterAppend(w, s, t), r)
    ensures Stored(w, s, r) || AboutToAppend(s, t, r)
  {
    hide Sound, Survivors, Appended, AppendError, Serialized, Materialized, Genuine, AfterAppend, Authentic;
    AppendIsRecorded(w, s, t);
    var a := AfterAppend(w, s, t);
    if Survivors(w.service, a.disk).Some? { assert Survivors(w.service, a.disk).value <= a.records; }
  }

  lemma CrashStores(w: World, s: System, t: nat, cut: Cut, r: SnapshotRecord)
    requires Sound(w, s) && CanCrash(w, s, t, cut) && Stored(w, AfterCrash(w, s, t, cut), r)
    ensures Stored(w, s, r) || AboutToAppend(s, t, r)
  {
    hide Sound, Survivors, CutAppend, AppendError, Genuine, Possible, LineBytes, Replayable;
    CrashYields(w, s, t, cut);
  }

  lemma RestartStores(w: World, s: System, r: SnapshotRecord)
    requires w.paths.journaled && Stored(w, AfterRestart(w, s), r)
    ensures Stored(w, s, r)
  {
    hide Survivors, Open;
    OpenYieldsSurvivors(w.service, w.paths, s.disk);
  }

  lemma StoppedOpenStores(w: World, s: System, g: Progress, r: SnapshotRecord)
    requires w.paths.journaled && CanStop(w.service, w.paths, s.disk, g)
    requires Stored(w, s.(disk := StoppedOpen(w.service, w.paths, s.disk, g)), r)
    ensures Stored(w, s, r)
  {
    hide Survivors, Open, CanStop, StoppedOpen;
    StoppedOpenRecovers(w.service, w.paths, s.disk, g);
  }

  lemma SameDiskStores(w: World, s: System, n: System, r: SnapshotRecord)
    requires n.records == s.records && n.disk == s.disk && Stored(w, n, r)
    ensures Stored(w, s, r)
  {
    hide Survivors;
  }

  /** Nothing is ever stored but what was stored before or is being appended. */
  lemma NothingElseIsStored(w: World, s: System, e: Event, r: SnapshotRecord) returns (t: nat)
    requires Sound(w, s) && Step(w, s, e).Some? && Stored(w, Step(w, s, e).value, r)
    ensures Stored(w, s, r) || AboutToAppend(s, t, r)
  {
    hide Sound, Stored, AboutToAppend, AfterAppend, AfterCrash, AfterRestart, CanCrash, Notarized, Reserved, CanStop;
    hide StoppedOpen;
    t := 0;
    var n := Step(w, s, e).value;
    assert w.paths.journaled by { SoundIsJournaled(w, s); }
    match e {
      case Append(u) => t := u; AppendStores(w, s, u, r);
      case Crash(u, cut) => t := u; CrashStores(w, s, u, cut, r);
      case Restart => RestartStores(w, s, r);
      case StopOpening(g) => StoppedOpenStores(w, s, g, r);
      case Stop => SameDiskStores(w, s, n, r);
      case Tick(_) => SameDiskStores(w, s, n, r);
      case _ => QuietStep(w, s, e); hide Step; SameDiskStores(w, s, n, r);
    }
  }

  lemma SoundIsJournaled(w: World, s: System)
    requires Sound(w, s)
    ensures w.paths.journaled
  {
    hide Serialized, Authentic, Recorded;
  }

  /** At some point of the run the record answered a request. */
  ghost predicate Submitted(c: Service, es: seq<Event>, r: SnapshotRecord) {
    exists k: nat, t: nat :: k <= |es| && Answers(c, es[..k], t, r)
  }

  ghost predicate AllSubmitted(w: World, es: seq<Event>, s: System) {
    forall r :: Stored(w, s, r) ==> Submitted(w.service, es, r)
  }

  lemma SubmittedLater(c: Service, es: seq<Event>, e: Event, r: SnapshotRecord)
    requires Submitted(c, es, r)
    ensures Submitted(c, es + [e], r)
  {
    hide Answers;
    var k: nat, t: nat :| k <= |es| && Answers(c, es[..k], t, r);
    assert (es + [e])[..k] == es[..k];
  }

  lemma SubmittedNow(c: Service, es: seq<Event>, e: Event, t: nat, r: SnapshotRecord)
    requires Answers(c, es, t, r)
    ensures Submitted(c, es + [e], r)
  {
    hide Answers;
    assert (es + [e])[..|es|] == es;
  }

  lemma SealedAnswers(w: World, es: seq<Event>, s: System, t: nat, r: SnapshotRecord)
    requires AllCarry(w, es, s) && AboutToAppend(s, t, r)
    ensures Answers(w.service, es, t, r)
  {
    hide Answers;
    assert Carries(w.service, es, t, s.tasks[t]);
  }

  lemma StepKeepsSubmitted(w: World, es: seq<Event>, s: System, e: Event)
    requires Sound(w, s) && AllCarry(w, es, s) && AllSubmitted(w, es, s) && Step(w, s, e).Some?
    ensures AllSubmitted(w, es + [e], Step(w, s, e).value)
  {
    hide Sound, Step, Stored, Submitted, AllCarry, AboutToAppend, Answers;
    var n := Step(w, s, e).value;
    forall r | Stored(w, n, r) ensures Submitted(w.service, es + [e], r) {
      var t := NothingElseIsStored(w, s, e, r);
      if Stored(w, s, r) {
        SubmittedLater(w.service, es, e, r);
      } else {
        SealedAnswers(w, es, s, t, r);
        SubmittedNow(w.service, es, e, t, r);
      }
    }
  }

  lemma {:induction false} RunKeepsSubmitted(w: World, before: seq<Event>, s: System, es: seq<Event>)
    requires Sound(w, s) && AllCarry(w, before, s) && AllSubmitted(w, before, s) && Run(w, s, es).Some?
    ensures AllCarry(w, before + es, Run(w, s, es).value) && AllSubmitted(w, before + es, Run(w, s, es).value)
    decreases |es|
  {
    hide Step, Sound, AllCarry, AllSubmitted;
    if es == [] {
      assert before + es == before;
    } else {
      StepKeepsSound(w, s, es[0]);
      StepCarries(w, before, s, es[0]);
      StepKeepsSubmitted(w, before, s, es[0]);
      RunKeepsSubmitted(w, before + [es[0]], Step(w, s, es[0]).value, es[1..]);
      assert es == [es[0]] + es[1..];
      Assoc(before, [es[0]], es[1..]);
    }
  }

  lemma FromTheStart(w: World, clock: i64, es: seq<Event>)
    requires w.paths.journaled && Run(w, Initial(clock), es).Some?
    ensures AllCarry(w, es, Run(w, Initial(clock), es).value)
    ensures AllSubmitted(w, es, Run(w, Initial(clock), es).value)
  {
    hide Run, Sound, AllCarry, AllSubmitted;
    InitialIsSound(w, clock);
    assert AllCarry(w, [], Initial(clock)) by { AllOfThem(w, [], Initial(clock)); }
    assert AllSubmitted(w, [], Initial(clock)) by { NothingStored(w, clock); }
    RunKeepsSubmitted(w, [], Initial(clock), es);
    assert [] + es == es;
  }

  lemma NothingStored(w: World, clock: i64)
    ensures AllSubmitted(w, [], Initial(clock))
  {}

  /** In every run, whatever crashes and restarts it has: each record in memory, and
      each the journal still yields, preserves a request that arrived and keeps the
      log's reply to that very request. */
  lemma EveryRecordWasSubmitted(w: World, clock: i64, es: seq<Event>, r: SnapshotRecord)
    requires w.paths.journaled && Run(w, Initial(clock), es).Some?
    requires Stored(w, Run(w, Initial(clock), es).value, r)
    ensures exists k: nat, t: nat ::
              && k <= |es| && ArrivedAs(es[..k], t).Some? && RepliedTo(es[..k], t).Some?
              && Preserves(r, ArrivedAs(es[..k], t).value)
              && KeepsReply(w.service, r, RepliedTo(es[..k], t).value)
  {
    hide Run, Stored, Preserves, KeepsReply;
    FromTheStart(w, clock, es);
    assert Submitted(w.service, es, r);
    var k: nat, t: nat :| k <= |es| && Answers(w.service, es[..k], t, r);
  }

  // ---- From the request to every later answer -------------------------------

  /** What a client finds in the body, whatever else is in it. */
  predicate ShowsRequest(v: DocumentView, req: Request, id: string, asOf: i64) {
    && v.snapshotId == id && v.asOf == asOf
    && v.submission == SubmissionView(req.submitter, asOf, req.passportId, req.stateHash, req.logHead, req.stateSize)
    && v.package.passportId == req.passportId && v.package.asOf == asOf
    && v.package.stateHash == req.stateHash && v.package.logHead == req.logHead
  }

  /** And of the log, if it anchored the record. */
  predicate ShowsAnchor(v: DocumentView, a: AnchorSummary, receipt: Json) {
    && v.provenance.anchoring
       == OutcomeView("anchored", None, Some(a.logId), Some(a.receiptSeq), Some(a.treeSize), Some(a.root),
                      Some(a.loggedAt))
    && v.provenance.receipt == Some(receipt)
  }

  /** A log's answer as it came over the wire. */
  predicate AnsweredWith(reply: Option<LogReply>, a: AnchorSummary, receipt: Json) {
    && reply.Some? && reply.value.Answered? && ParseDocument(reply.value.text) == Some(receipt)
    && SummaryFromReceipt(receipt) == Some(a)
  }

  lemma DurableIsReadable(w: World, s: System, r: SnapshotRecord)
    requires MayAppend(w, s, r)
    ensures Readable(r)
  {
    hide Clean, Timestamps.Printable;
  }

  /** The record about to be appended answers the request of `t`, and so does the
      body it will be answered with. */
  lemma PostedAnswers(w: World, clock: i64, before: seq<Event>, s: System, t: nat)
    requires w.paths.journaled && Run(w, Initial(clock), before) == Some(s) && CanAppend(w, s, t)
    ensures var r := s.tasks[t].record;
            && ReceiptWellFormed(r) && Answers(w.service, before, t, r)
            && ResponseTo(w, s, Append(t))
               == Some(CreatedBody(r.snapshotId, r.notarizedAt, BodyBytes(w.service, r)))
  {
    hide Run, Sound, AllCarry, AllSubmitted, BodyBytes, Created, Answers, GetResponse, AppendError, AfterAppend;
    FromTheStart(w, clock, before);
    SealedAnswers(w, before, s, t, s.tasks[t].record);
    InitialIsSound(w, clock);
    RunKeepsSound(w, Initial(clock), before);
    SealedFacts(w, s, t);
    AppendedIsServed(w, s, t);
  }

  /** What a client reads in the body of a record that answers a task. */
  lemma BodyShows(c: Service, es: seq<Event>, t: nat, r: SnapshotRecord, a: AnchorSummary, receipt: Json)
    requires Answers(c, es, t, r) && Readable(r) && ReceiptWellFormed(r) && ReceiptDepth(r) <= 124
    ensures ReadBody(BodyBytes(c, r)).Some?
    ensures ShowsRequest(ReadBody(BodyBytes(c, r)).value, ArrivedAs(es, t).value, r.snapshotId, r.notarizedAt)
    ensures AnsweredWith(RepliedTo(es, t), a, receipt) ==>
              ShowsAnchor(ReadBody(BodyBytes(c, r)).value, a, receipt)
  {
    hide ReadBody, BodyBytes, ReceiptWellFormed, ReceiptDepth, Readable, Core, ParseDocument, SummaryFromReceipt;
    hide Statement;
    BodyIsRead(c, r);
  }

  /** A later answer with a body in which a client reads the request of `t`, and
      the log's answer to it, if there was one. */
  ghost predicate ServesSubmission(es: seq<Event>, t: nat, posted: Response, got: Response, a: AnchorSummary,
      receipt: Json)
    requires posted.CreatedBody?
  {
    && got.Found? && got.body == posted.body && ReadBody(got.body).Some? && ArrivedAs(es, t).Some?
    && ShowsRequest(ReadBody(got.body).value, ArrivedAs(es, t).value, posted.id, posted.asOf)
    && (AnsweredWith(RepliedTo(es, t), a, receipt) ==> ShowsAnchor(ReadBody(got.body).value, a, receipt))
  }

  lemma ServedBodyShows(c: Service, es: seq<Event>, t: nat, r: SnapshotRecord, got: Response, a: AnchorSummary,
      receipt: Json)
    requires Answers(c, es, t, r) && Readable(r) && ReceiptWellFormed(r) && ReceiptDepth(r) <= 124
    requires got.Found? && got.body == BodyBytes(c, r)
    ensures ServesSubmission(es, t, CreatedBody(r.snapshotId, r.notarizedAt, BodyBytes(c, r)), got, a, receipt)
  {
    assert ArrivedAs(es, t).Some?;
    hide Answers, Readable, ReceiptWellFormed, ReceiptDepth, BodyBytes, ReadBody, ShowsRequest, ShowsAnchor;
    hide AnsweredWith, ArrivedAs, RepliedTo;
    BodyShows(c, es, t, r, a, receipt);
  }

  /** End to end, from the request to every later answer: once a POST is answered
      after a durable append, every later GET of its id is answered with a body in
      which a client reads the request that arrived, part by part, and the log's
      answer to it, if there was one; the receipt must nest at most 124 levels. */
  lemma SubmissionIsServedForever(w: World, clock: i64, before: seq<Event>, s: System, t: nat, after: seq<Event>,
      n: System, a: AnchorSummary, receipt: Json)
    requires w.paths.journaled && Run(w, Initial(clock), before) == Some(s)
    requires CanAppend(w, s, t) && MayAppend(w, s, s.tasks[t].record) && ReceiptDepth(s.tasks[t].record) <= 124
    requires Run(w, AfterAppend(w, s, t), after) == Some(n)
    ensures var posted := ResponseTo(w, s, Append(t));
            && posted.Some? && posted.value.CreatedBody?
            && var got := GetResponse(w.service, n.records, posted.value.id);
            ServesSubmission(before, t, posted.value, got, a, receipt)
  {
    var r := s.tasks[t].record;
    hide Run, GetResponse, BodyBytes, ReadBody, ReceiptDepth, ReceiptWellFormed, MayAppend, Answers, Readable;
    hide ResponseTo, CanAppend, AfterAppend, Step, Initial, ServesSubmission;
    PostedBodyIsServedForever(w, clock, before, s, t, after, n);
    PostedAnswers(w, clock, before, s, t);
    DurableIsReadable(w, s, r);
    var got := GetResponse(w.service, n.records, r.snapshotId);
    ServedBodyShows(w.service, before, t, r, got, a, receipt);
  }
}
