/** One create request from its reservation to its response, and the reads
    (src/api.rs). */
module Ingest {
  import opened Basics
  import opened Text
  import opened Json
  import Hex
  import opened JsonShape
  import opened Records
  import opened JournalLines
  import opened Documents
  import opened Store
  import opened SnapshotIds
  import Timestamps

  datatype Request = Request(passportId: string, stateHash: Hex.Hash, logHead: Hex.Hash, submitter: Option<string>,
      stateSize: Option<u64>)

  /** What came back from the log: a reply's text, with the reason to record if
      it is not a usable receipt, or a failure with its reason. */
  datatype LogReply = Answered(text: string, complaint: string) | Failed(reason: string)

  function Outcome(reply: LogReply, commitment: Hex.Hash): Anchoring {
    match reply
    case Failed(reason) => UnanchoredFor(reason)
    case Answered(text, complaint) =>
      match ParseDocument(text)
      case None => UnanchoredFor(complaint)
      case Some(receipt) =>
        match SummaryFromReceipt(receipt)
        case None => UnanchoredFor(complaint)
        case Some(summary) => AnchoredBy(summary, receipt, commitment)
  }

  /** The record at its reservation. */
  function Reserved(req: Request, n: u64, now: i64): SnapshotRecord {
    NewRecord(n, now, req.passportId, req.stateHash, req.logHead, req.submitter, req.stateSize)
  }

  /** The record once the log has answered and the notary has signed. */
  function Notarized(c: Service, key: Key, draft: SnapshotRecord, reply: LogReply): Option<SnapshotRecord> {
    Seal(c, key, draft.(anchoring := Outcome(reply, Commitment(c, draft))))
  }

  // ---- What a created record satisfies --------------------------------------

  /** Any outcome has the parts its status needs, holds a proper receipt of at most
      127 levels, and is journalable unless the log's own instant is out of range. */
  lemma OutcomeShape(reply: LogReply, commitment: Hex.Hash)
    ensures var a := Outcome(reply, commitment);
            && WellShaped(a)
            && (a.receipt.Some? ==> WellFormed(a.receipt.value) && Depth(a.receipt.value) <= 127)
            && (JournalableAnchoring(a) <==> a.loggedAt.Some? ==> Timestamps.Printable(a.loggedAt.value))
  {
    hide ParseDocument, SummaryFromReceipt, WellFormed, Depth, Timestamps.Printable;
    if reply.Answered? && ParseDocument(reply.text).Some? {
      ParsedIsShaped(reply.text);
      var receipt := ParseDocument(reply.text).value;
      if SummaryFromReceipt(receipt).Some? { AcceptedReceiptIsJournalable(receipt, commitment); }
    }
  }

  /** A record as the service creates it: sealed by its notary, its id that of
      its number, its receipt and outcome as the log's reply gave them. */
  ghost predicate Created(c: Service, key: Key, r: SnapshotRecord) {
    && Seal(c, key, r) == Some(r)
    && r.snapshotId == SnapshotIdOf(r.seqNo)
    && ReceiptWellFormed(r) && WellShaped(r.anchoring)
  }

  predicate Draftable(r: SnapshotRecord) {
    r.snapshotId == SnapshotIdOf(r.seqNo)
  }

  lemma NotarizedIsCreated(c: Service, key: Key, draft: SnapshotRecord, reply: LogReply)
    requires Notarized(c, key, draft, reply).Some? && Draftable(draft)
    ensures var r := Notarized(c, key, draft, reply).value;
            && Created(c, key, r)
            && DigestMatches(c, r)
            && r.seqNo == draft.seqNo && r.notarizedAt == draft.notarizedAt
            && r.anchoring.commitment == Some(Commitment(c, draft))
            && r.anchoring == Outcome(reply, Commitment(c, draft)).(commitment := r.anchoring.commitment)
  {
    hide Seal, Core, Statement, DigestMatches, Outcome, SnapshotIdOf, WellFormed, Depth;
    var answered := draft.(anchoring := Outcome(reply, Commitment(c, draft)));
    SealIsStable(c, key, answered);
    OutcomeShape(reply, Commitment(c, draft));
    CoreIgnoresAnchoring(draft, answered.anchoring);
  }

  /** The record preserves what was submitted, each part in its own field. */
  predicate Preserves(r: SnapshotRecord, req: Request) {
    && r.passportId == req.passportId && r.stateHash == req.stateHash && r.logHead == req.logHead
    && r.submitter == req.submitter && r.stateSize == req.stateSize
  }

  /** The anchoring is what the log's reply made it, and commits to the core. */
  predicate KeepsReply(c: Service, r: SnapshotRecord, reply: LogReply) {
    r.anchoring == Outcome(reply, c.sha256(Core(r))).(commitment := Some(c.sha256(Core(r))))
  }

  /** A notarized record preserves the request, keeps its reservation and the log's
      reply, and is named after its number. */
  lemma NotarizedPreserves(c: Service, key: Key, req: Request, n: u64, now: i64, reply: LogReply)
    requires Notarized(c, key, Reserved(req, n, now), reply).Some?
    ensures var r := Notarized(c, key, Reserved(req, n, now), reply).value;
            && Preserves(r, req) && KeepsReply(c, r, reply)
            && r.seqNo == n && r.notarizedAt == now && r.snapshotId == "s-" + Pad(n, 12)
  {
    hide Seal, Core, Statement, DigestMatches, Outcome, Pad;
    var draft := Reserved(req, n, now);
    var answered := draft.(anchoring := Outcome(reply, Commitment(c, draft)));
    SealIsStable(c, key, answered);
    CoreIgnoresAnchoring(draft, answered.anchoring);
  }

  lemma CoreIgnoresAnchoring(r: SnapshotRecord, a: Anchoring)
    ensures Core(r.(anchoring := a)) == Core(r)
  {}

  /** A created record survives its journal exactly when the clock and the log's
      clock read four-digit years and the receipt is at most 125 levels deep. */
  lemma CreatedIsReplayableIff(c: Service, key: Key, draft: SnapshotRecord, reply: LogReply)
    requires Notarized(c, key, draft, reply).Some? && Draftable(draft)
    ensures var r := Notarized(c, key, draft, reply).value;
            Replayable(r) <==>
              && Timestamps.Printable(draft.notarizedAt)
              && (r.anchoring.loggedAt.Some? ==> Timestamps.Printable(r.anchoring.loggedAt.value))
              && ReceiptDepth(r) <= 125
  {
    hide Notarized, Outcome, ReceiptDepth, Timestamps.Printable, Created, DigestMatches, Commitment, Draftable;
    hide WellFormed, Depth, Complete;
    NotarizedIsCreated(c, key, draft, reply);
    var h := Commitment(c, draft);
    OutcomeShape(reply, h);
    var a := Outcome(reply, h);
    if JournalableAnchoring(a) { CommitmentIsJournalable(a, h); }
  }

  lemma CommitmentIsJournalable(a: Anchoring, h: Hex.Hash)
    requires JournalableAnchoring(a)
    ensures JournalableAnchoring(a.(commitment := Some(h)))
  {}

  lemma CreatedDigest(c: Service, key: Key, r: SnapshotRecord)
    requires Created(c, key, r)
    ensures DigestMatches(c, r)
  {
    hide Seal, Core, Statement, DigestMatches, SnapshotIdOf;
    SealIsStable(c, key, r);
  }

  /** Every created record's document verifies on its own while its instant prints. */
  lemma CreatedVerifies(c: Service, key: Key, r: SnapshotRecord)
    requires SignaturesVerify(c) && Created(c, key, r) && Timestamps.Printable(r.notarizedAt)
    ensures VerifiesAlone(c, key, ToDocument(c, r))
  {
    hide Seal, VerifiesAlone, ToDocument, Timestamps.Printable;
    SealedDocumentVerifies(c, key, r);
  }

  // ---- Responses ------------------------------------------------------------

  datatype Response =
    | CreatedBody(id: string, asOf: i64, body: bytes)
    | Found(asOf: i64, digest: Hex.Hash, body: bytes)
    | NotFound
    | ServerError
    | ConflictError

  /** `create_snapshot` after the log's reply. */
  function CreateResponse(c: Service, rs: seq<SnapshotRecord>, r: SnapshotRecord): Response {
    match AppendError(c, rs, r)
    case None => CreatedBody(r.snapshotId, r.notarizedAt, BodyBytes(c, r))
    case Some(Conflict) => ConflictError
    case Some(JournalError) => ServerError
  }

  /** `get_snapshot`, whose path parameter is trimmed. */
  function GetResponse(c: Service, rs: seq<SnapshotRecord>, path: string): Response {
    match Find(rs, Trim(path))
    case None => NotFound
    case Some(r) => Found(r.notarizedAt, r.bodyDigest, BodyBytes(c, r))
  }

  /** A create answers with the record's id, instant and body, unless its number is
      taken or its digest is not that of its body. */
  lemma CreateAnswers(c: Service, rs: seq<SnapshotRecord>, r: SnapshotRecord)
    ensures var digestFits := c.sha256(BodyBytes(c, r)) == r.bodyDigest;
            CreateResponse(c, rs, r)
            == if r.seqNo != |rs| then ConflictError
               else if !digestFits then ServerError
               else CreatedBody(r.snapshotId, r.notarizedAt, BodyBytes(c, r))
  {
    hide BodyBytes;
  }

  lemma IdsAreTrimmed(n: u64)
    ensures Trimmed(SnapshotIdOf(n))
  {
    hide Pad;
    var s := SnapshotIdOf(n);
    assert s[0] == 's' && IsDigit(s[|s| - 1]);
  }

  /** A GET answers with the stored record's body for exactly its id, whatever white
      space is around it in the path. */
  lemma GetServesStored(c: Service, rs: seq<SnapshotRecord>, before: string, n: u64, after: string)
    requires Numbered(rs) && AllWhite(before) && AllWhite(after)
    ensures GetResponse(c, rs, before + (SnapshotIdOf(n) + after))
         == if n < |rs| then Found(rs[n].notarizedAt, rs[n].bodyDigest, BodyBytes(c, rs[n])) else NotFound
  {
    hide BodyBytes, Trim, SnapshotIdOf, Find, Numbered, AllWhite, Trimmed;
    IdsAreTrimmed(n);
    TrimOf(before, SnapshotIdOf(n), after);
    if n < |rs| { FindExactly(rs, SnapshotIdOf(n), rs[n]); }
    else { NoSuchId(rs, n); }
  }

  lemma GetServesId(c: Service, rs: seq<SnapshotRecord>, n: u64)
    requires Numbered(rs)
    ensures GetResponse(c, rs, SnapshotIdOf(n))
         == if n < |rs| then Found(rs[n].notarizedAt, rs[n].bodyDigest, BodyBytes(c, rs[n])) else NotFound
  {
    hide BodyBytes, GetResponse, SnapshotIdOf, Numbered;
    assert "" + (SnapshotIdOf(n) + "") == SnapshotIdOf(n);
    GetServesStored(c, rs, "", n, "");
  }

  /** The path names this number. */
  ghost predicate Names(path: string, n: u64) {
    exists before, after :: AllWhite(before) && AllWhite(after) && path == before + (SnapshotIdOf(n) + after)
  }

  /** A path is found exactly when it names a stored record. */
  lemma FoundExactly(c: Service, rs: seq<SnapshotRecord>, path: string)
    requires Numbered(rs)
    ensures GetResponse(c, rs, path).Found? <==> exists n: u64 :: n < |rs| && Names(path, n)
    ensures !GetResponse(c, rs, path).Found? ==> GetResponse(c, rs, path) == NotFound
  {
    hide BodyBytes, Trim, SnapshotIdOf, Find, Numbered, AllWhite, Trimmed;
    forall n: u64 | n < |rs| && Names(path, n) ensures GetResponse(c, rs, path).Found? {
      var before, after :| AllWhite(before) && AllWhite(after) && path == before + (SnapshotIdOf(n) + after);
      GetServesStored(c, rs, before, n, after);
    }
    if GetResponse(c, rs, path).Found? {
      var id := Trim(path);
      FindExactly(rs, id, Find(rs, id).value);
      var n: u64 :| n < |rs| && id == SnapshotIdOf(n) && Find(rs, id).value == rs[n];
      TrimExactly(path, id);
      assert Names(path, n);
    }
  }

  lemma NoSuchId(rs: seq<SnapshotRecord>, n: u64)
    requires Numbered(rs) && n >= |rs|
    ensures Find(rs, SnapshotIdOf(n)) == None
  {
    hide SnapshotIdOf, Find, Numbered;
    var id := SnapshotIdOf(n);
    if Find(rs, id).Some? {
      FindExactly(rs, id, Find(rs, id).value);
      var k: u64 :| k < |rs| && id == SnapshotIdOf(k) && Find(rs, id).value == rs[k];
      IdsAreInjective(n, k);
    }
  }

  // ---- The handler ----------------------------------------------------------

  /** The application state, with the clock and the log's reply as arguments. */
  class AppState {
    const service: Service
    const notary: Key
    const store: SnapshotStore

    constructor (service: Service, notary: Key, store: SnapshotStore)
      ensures this.service == service && this.notary == notary && this.store == store
    {
      this.service := service;
      this.notary := notary;
      this.store := store;
    }

    /** A create that nothing interrupts: it never conflicts, and it stores and
        answers with a record that preserves the request, keeps the log's reply and
        is stamped with the clock, unless the signer fails. */
    method CreateSnapshot(req: Request, now: i64, reply: LogReply) returns (response: Response)
      requires store.Valid() && |store.records| < U64_LIMIT
      modifies store, store.journal, store.snapshotDir
      ensures store.Valid() && store.journal == old(store.journal) && store.snapshotDir == old(store.snapshotDir)
      ensures var r := Notarized(service, notary, Reserved(req, |old(store.records)|, now), reply);
              var before, after := old(OnDisk(store.journal, store.snapshotDir)),
                OnDisk(store.journal, store.snapshotDir);
              if r.None? then response == ServerError && store.records == old(store.records) && after == before
              else && response == CreatedBody(SnapshotIdOf(|old(store.records)|), now, BodyBytes(service, r.value))
                   && Preserves(r.value, req) && KeepsReply(service, r.value, reply)
                   && r.value.seqNo == |old(store.records)| && r.value.notarizedAt == now
                   && store.records == old(store.records) + [r.value]
                   && after == Appended(service, PathsOf(store.journal, store.snapshotDir), before, r.value)
    {
      hide Seal, Core, BodyBytes, SnapshotIdOf, Outcome, Appended, DigestMatches, KeepsReply;
      var n, at := store.Reserve(now);
      var draft := new Draft(n, at, req.passportId, req.stateHash, req.logHead, req.submitter, req.stateSize);
      ghost var reserved := draft.record;
      var commitment := Commitment(service, draft.record);
      draft.SetAnchoring(Outcome(reply, commitment));
      var sealed := draft.SealWith(service, notary);
      if !sealed { return ServerError; }
      NotarizedIsCreated(service, notary, reserved, reply);
      NotarizedPreserves(service, notary, req, n, now, reply);
      var body := BodyBytes(service, draft.record);
      var e := store.AppendSnapshot(service, draft.record);
      match e {
        case Some(Conflict) => return ConflictError;
        case Some(JournalError) => return ServerError;
        case None => return CreatedBody(draft.record.snapshotId, at, body);
      }
    }

    method GetSnapshot(path: string) returns (response: Response)
      ensures response == GetResponse(service, store.records, path)
    {
      var id := Trim(path);
      match store.Get(id) {
        case Some(r) => return Found(r.notarizedAt, r.bodyDigest, BodyBytes(service, r));
        case None => return NotFound;
      }
    }
  }
}
