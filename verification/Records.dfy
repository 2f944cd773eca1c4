/** Snapshot records, their canonical statements, and their two JSON
    projections: the served document and the journal line (src/model.rs). */
module Records {
  import opened Basics
  import opened Text
  import opened Hex
  import opened Json
  import opened Canonical
  import Utf8
  import Timestamps

  const SERVICE_ID := "unidpp-archive"
  const SCHEMA := "unidpp-archive/snapshot/1"

  type Key = bytes

  /** What the archive takes from outside: the hash, the signature scheme, and
      the three prose labels its documents carry. Every result below holds for
      all of them. `sign` is None where the signer reports an error. */
  datatype Service = Service(
    sha256: bytes -> Hash,
    sign: (Key, bytes) -> Option<bytes>,
    verify: (bytes, bytes, bytes) -> bool,
    publicKey: Key -> bytes,
    keyId: Key -> string,
    oaisProfile: string,
    adapterNote: string,
    verification: string)

  /** A signature made with a key verifies under its public half. */
  ghost predicate SignaturesVerify(c: Service) {
    forall k: Key, m: bytes :: c.sign(k, m).Some? ==> c.verify(c.publicKey(k), m, c.sign(k, m).value)
  }

  // ---- Anchoring ------------------------------------------------------------

  datatype AnchoringStatus = Anchored | Unanchored

  function StatusText(s: AnchoringStatus): string {
    if s.Anchored? then "anchored" else "unanchored"
  }

  datatype AnchorSummary = AnchorSummary(logId: string, receiptSeq: u64, treeSize: u64, root: Hash, loggedAt: i64)

  datatype Anchoring = Anchoring(
    status: AnchoringStatus,
    reason: Option<string>,
    logId: Option<string>,
    receiptSeq: Option<u64>,
    treeSize: Option<u64>,
    root: Option<Hash>,
    loggedAt: Option<i64>,
    commitment: Option<Hash>,
    receipt: Option<Json>)

  function AnchoredBy(s: AnchorSummary, receipt: Json, commitment: Hash): Anchoring {
    Anchoring(Anchored, None, Some(s.logId), Some(s.receiptSeq), Some(s.treeSize), Some(s.root), Some(s.loggedAt),
              Some(commitment), Some(receipt))
  }

  function UnanchoredFor(reason: string): Anchoring {
    Anchoring(Unanchored, Some(reason), None, None, None, None, None, None, None)
  }

  function AsHash(v: Option<Json>): Option<Hash> {
    match AsStr(v) case Some(s) => HashFromHex(s) case None => None
  }

  function AsInstant(v: Option<Json>): Option<i64> {
    match AsStr(v)
    case None => None
    case Some(s) =>
      match Timestamps.Parse(s)
      case None => None
      case Some(t) => Timestamps.ParsedIsBounded(s); Some(t)
  }

  function AsReceiptId(v: Option<Json>): Option<u64> {
    match AsStr(v) case Some(s) => ParseU64(s) case None => None
  }

  /** The anchoring summary of a log's inclusion receipt: all fields or nothing. */
  function SummaryFromReceipt(v: Json): Option<AnchorSummary> {
    if !v.Obj? then None else
    var logId :- AsStr(Member(v, "log_id"));
    if logId == "" then None else
    var n :- if AsU64(Member(v, "seq")).Some? then AsU64(Member(v, "seq")) else AsReceiptId(Member(v, "receipt_id"));
    var head :- Member(v, "tree_head");
    if !head.Obj? then None else
    var treeSize :- AsU64(Member(head, "tree_size"));
    var root :- AsHash(Member(head, "root"));
    var loggedAt :- AsInstant(Member(v, "logged_at"));
    Some(AnchorSummary(logId, n, treeSize, root, loggedAt))
  }

  // ---- Records --------------------------------------------------------------

  datatype SnapshotRecord = SnapshotRecord(
    seqNo: u64,
    snapshotId: string,
    notarizedAt: i64,
    passportId: string,
    stateHash: Hash,
    logHead: Hash,
    submitter: Option<string>,
    stateSize: Option<u64>,
    anchoring: Anchoring,
    signature: bytes,
    keyId: string,
    bodyDigest: Hash)

  /** `s-` and at least twelve digits. */
  function SnapshotIdOf(n: u64): string {
    "s-" + Pad(n, 12)
  }

  function NewRecord(n: u64, at: i64, passportId: string, stateHash: Hash, logHead: Hash, submitter: Option<string>,
      stateSize: Option<u64>): SnapshotRecord {
    SnapshotRecord(n, SnapshotIdOf(n), at, passportId, stateHash, logHead, submitter, stateSize,
                   UnanchoredFor("not attempted yet"), [], "", ZeroHash())
  }

  // ---- Canonical statements -------------------------------------------------

  function CoreBytes(id: string, n: u64, passportId: string, stateHash: Hash, logHead: Hash, at: i64): bytes {
    Prefixed(SERVICE_ID) + (Prefixed(id) + (U64(n) + (Prefixed(passportId) + (stateHash + (logHead + I64(at))))))
  }

  function StatementBytes(core: bytes, a: Anchoring): bytes {
    core + OutcomeBytes(a)
  }

  function OutcomeBytes(a: Anchoring): bytes {
    match a.status
    case Unanchored => U32(0)
    case Anchored =>
      U32(1) + (Prefixed(OrElse(a.logId, ""))
        + (U64(OrElse(a.receiptSeq, 0)) + (U64(OrElse(a.treeSize, 0)) + OrElse(a.root, ZeroHash()))))
  }

  function OrElse<T>(o: Option<T>, default: T): T {
    if o.Some? then o.value else default
  }

  function Core(r: SnapshotRecord): bytes {
    CoreBytes(r.snapshotId, r.seqNo, r.passportId, r.stateHash, r.logHead, r.notarizedAt)
  }

  function Statement(r: SnapshotRecord): bytes {
    StatementBytes(Core(r), r.anchoring)
  }

  function Commitment(c: Service, r: SnapshotRecord): Hash {
    c.sha256(Core(r))
  }

  method WriteCore(r: SnapshotRecord) returns (b: bytes)
    ensures b == Core(r)
  {
    var w := new Writer();
    w.WriteStr(SERVICE_ID);
    w.WriteStr(r.snapshotId);
    w.WriteU64(r.seqNo);
    w.WriteStr(r.passportId);
    w.WriteHash(r.stateHash);
    w.WriteHash(r.logHead);
    w.WriteI64(r.notarizedAt);
    b := w.buffer;
    RightNested([], Prefixed(SERVICE_ID), Prefixed(r.snapshotId), U64(r.seqNo), Prefixed(r.passportId), r.stateHash,
      r.logHead, I64(r.notarizedAt));
  }

  lemma RightNested(z: bytes, a: bytes, b: bytes, c: bytes, d: bytes, e: bytes, f: bytes, g: bytes)
    ensures z + a + b + c + d + e + f + g == z + (a + (b + (c + (d + (e + (f + g))))))
  {
    Assoc(z + a + b + c + d + e, f, g);
    Assoc(z + a + b + c + d, e, f + g);
    Assoc(z + a + b + c, d, e + (f + g));
    Assoc(z + a + b, c, d + (e + (f + g)));
    Assoc(z + a, b, c + (d + (e + (f + g))));
    Assoc(z, a, b + (c + (d + (e + (f + g)))));
  }

  method WriteStatement(core: bytes, a: Anchoring) returns (b: bytes)
    ensures b == StatementBytes(core, a)
  {
    var w := new Writer();
    w.WriteRaw(core);
    match a.status {
      case Unanchored =>
        w.WriteU32(0);
      case Anchored =>
        w.WriteU32(1);
        w.WriteStr(OrElse(a.logId, ""));
        w.WriteU64(OrElse(a.receiptSeq, 0));
        w.WriteU64(OrElse(a.treeSize, 0));
        w.WriteHash(OrElse(a.root, ZeroHash()));
    }
    b := w.buffer;
    assert [] + core == core;
    if a.status.Anchored? {
      RightNested([], [], core, U32(1), Prefixed(OrElse(a.logId, "")), U64(OrElse(a.receiptSeq, 0)),
        U64(OrElse(a.treeSize, 0)), OrElse(a.root, ZeroHash()));
    }
  }

  // ---- JSON projections -----------------------------------------------------

  function OptText(o: Option<string>): Json {
    match o case None => Null case Some(s) => Str(s)
  }

  function OptNum(o: Option<u64>): Json {
    match o case None => Null case Some(n) => Num(n)
  }

  function OptId(o: Option<u64>): Json {
    match o case None => Null case Some(n) => Str(Decimal(n))
  }

  function OptHash(o: Option<Hash>): Json {
    match o case None => Null case Some(h) => Str(HashHex(h))
  }

  function OptInstant(o: Option<i64>): Json {
    match o case None => Null case Some(t) => Str(Timestamps.Print(t))
  }

  function OptJson(o: Option<Json>): Json {
    match o case None => Null case Some(v) => v
  }

  function AnchoringMembers(a: Anchoring): seq<Field> {
    [ Field("status", Str(StatusText(a.status))),
      Field("reason", OptText(a.reason)),
      Field("log_id", OptText(a.logId)),
      Field("receipt_id", OptId(a.receiptSeq)),
      Field("tree_size", OptNum(a.treeSize)),
      Field("root", OptHash(a.root)),
      Field("logged_at", OptInstant(a.loggedAt)) ]
  }

  function AnchoringJournalMembers(a: Anchoring): seq<Field> {
    AnchoringMembers(a) + [Field("commitment", OptHash(a.commitment)), Field("receipt", OptJson(a.receipt))]
  }

  function RecordMembers(r: SnapshotRecord): seq<Field> {
    [ Field("seq", Num(r.seqNo)),
      Field("snapshot_id", Str(r.snapshotId)),
      Field("notarized_at", Str(Timestamps.Print(r.notarizedAt))),
      Field("passport_id", Str(r.passportId)),
      Field("state_hash", Str(HashHex(r.stateHash))),
      Field("log_head", Str(HashHex(r.logHead))),
      Field("submitter", OptText(r.submitter)),
      Field("state_size", OptNum(r.stateSize)),
      Field("anchoring", Object(AnchoringJournalMembers(r.anchoring))),
      Field("signature", Str(HexEncode(r.signature))),
      Field("key_id", Str(r.keyId)),
      Field("body_digest", Str(HashHex(r.bodyDigest))) ]
  }

  /** `to_journal_json`. */
  function ToJournal(r: SnapshotRecord): Json {
    Object(RecordMembers(r))
  }

  /** A member that may be absent or null; the outer None is a type error. */
  function Optional<T>(v: Json, key: string, read: Option<Json> -> Option<T>): Option<Option<T>> {
    match Member(v, key)
    case None => Some(None)
    case Some(Null) => Some(None)
    case some =>
      match read(some)
      case None => None
      case Some(t) => Some(Some(t))
  }

  function AsObject(v: Option<Json>): Option<Json> {
    if v.Some? && v.value.Obj? then v else None
  }

  predicate Complete(a: Anchoring) {
    && a.logId.Some? && a.receiptSeq.Some? && a.treeSize.Some? && a.root.Some?
    && a.loggedAt.Some? && a.commitment.Some? && a.receipt.Some?
  }

  /** `Anchoring::from_json`. */
  function AnchoringFromJson(v: Json): Option<Anchoring> {
    if !v.Obj? then None else
    var status := AsStr(Member(v, "status"));
    if status != Some("anchored") && status != Some("unanchored") then None else
    var reason :- Optional(v, "reason", AsStr);
    var logId :- Optional(v, "log_id", AsStr);
    var receiptSeq :- Optional(v, "receipt_id", AsReceiptId);
    var treeSize :- Optional(v, "tree_size", AsU64);
    var root :- Optional(v, "root", AsHash);
    var loggedAt :- Optional(v, "logged_at", AsInstant);
    var commitment :- Optional(v, "commitment", AsHash);
    var receipt :- Optional(v, "receipt", AsObject);
    var a := Anchoring(if status == Some("anchored") then Anchored else Unanchored,
                       reason, logId, receiptSeq, treeSize, root, loggedAt, commitment, receipt);
    if a.status.Anchored? && !Complete(a) then None else Some(a)
  }

  /** `from_journal_json`. */
  function FromJournal(v: Json): Option<SnapshotRecord> {
    if !v.Obj? then None else
    var anchoringJson :- Member(v, "anchoring");
    var anchoring :- AnchoringFromJson(anchoringJson);
    var signatureText :- AsStr(Member(v, "signature"));
    var signature :- HexDecode(signatureText);
    var n :- AsU64(Member(v, "seq"));
    var id :- AsStr(Member(v, "snapshot_id"));
    var at :- AsInstant(Member(v, "notarized_at"));
    var passportId :- AsStr(Member(v, "passport_id"));
    var stateHash :- AsHash(Member(v, "state_hash"));
    var logHead :- AsHash(Member(v, "log_head"));
    var submitter :- Optional(v, "submitter", AsStr);
    var stateSize :- Optional(v, "state_size", AsU64);
    var keyId :- AsStr(Member(v, "key_id"));
    var bodyDigest :- AsHash(Member(v, "body_digest"));
    Some(SnapshotRecord(n, id, at, passportId, stateHash, logHead, submitter, stateSize, anchoring, signature, keyId,
      bodyDigest))
  }

  // ---- The served document --------------------------------------------------

  function SubmissionMembers(r: SnapshotRecord): seq<Field> {
    [ Field("submitter", OptText(r.submitter)),
      Field("submitted_at", Str(Timestamps.Print(r.notarizedAt))),
      Field("passport_id", Str(r.passportId)),
      Field("state_hash", Str(HashHex(r.stateHash))),
      Field("log_head", Str(HashHex(r.logHead))),
      Field("state_size", OptNum(r.stateSize)) ]
  }

  function PackageMembers(c: Service, r: SnapshotRecord): seq<Field> {
    [ Field("passport_id", Str(r.passportId)),
      Field("state_hash", Str(HashHex(r.stateHash))),
      Field("log_head", Str(HashHex(r.logHead))),
      Field("as_of", Str(Timestamps.Print(r.notarizedAt))),
      Field("commitment", OptHash(r.anchoring.commitment)),
      Field("statement_digest", Str(HashHex(c.sha256(Statement(r))))) ]
  }

  function SigningMembers(c: Service, r: SnapshotRecord): seq<Field> {
    [ Field("suite", Str("ed25519")),
      Field("key_id", Str(r.keyId)),
      Field("domain", Str("tree-head")),
      Field("adapter_note", Str(c.adapterNote)) ]
  }

  function ProvenanceMembers(c: Service, r: SnapshotRecord): seq<Field> {
    [ Field("service", Str(SERVICE_ID)),
      Field("notarized_at", Str(Timestamps.Print(r.notarizedAt))),
      Field("signing", Object(SigningMembers(c, r))),
      Field("anchoring", Object(AnchoringMembers(r.anchoring))),
      Field("receipt", OptJson(r.anchoring.receipt)),
      Field("signature", Str(HexEncode(r.signature))),
      Field("verification", Str(c.verification)) ]
  }

  function OaisMembers(c: Service, r: SnapshotRecord): seq<Field> {
    [ Field("profile", Str(c.oaisProfile)),
      Field("submission", Object(SubmissionMembers(r))),
      Field("information_package", Object(PackageMembers(c, r))),
      Field("provenance", Object(ProvenanceMembers(c, r))) ]
  }

  function DocumentMembers(c: Service, r: SnapshotRecord): seq<Field> {
    [ Field("schema", Str(SCHEMA)),
      Field("service", Str(SERVICE_ID)),
      Field("snapshot_id", Str(r.snapshotId)),
      Field("seq", Num(r.seqNo)),
      Field("as_of", Str(Timestamps.Print(r.notarizedAt))),
      Field("oais", Object(OaisMembers(c, r))) ]
  }

  /** `to_document`. */
  function ToDocument(c: Service, r: SnapshotRecord): Json {
    Object(DocumentMembers(c, r))
  }

  /** `render_body`: the exact served text. */
  function RenderBody(c: Service, r: SnapshotRecord): string {
    Print(ToDocument(c, r), Pretty, 0)
  }

  function BodyBytes(c: Service, r: SnapshotRecord): bytes {
    Utf8.Encode(RenderBody(c, r))
  }

  // ---- Rebuilding from a document -------------------------------------------

  /** `doc_field`: follow a path of member names. */
  function At(v: Json, path: seq<string>): Option<Json>
    decreases path
  {
    if path == [] then Some(v)
    else match Member(v, path[0]) case None => None case Some(w) => At(w, path[1..])
  }

  /** `core_bytes_from_document`. */
  function CoreFromDocument(doc: Json): Option<bytes> {
    if AsStr(At(doc, ["service"])) != Some(SERVICE_ID) then None else
    var id :- AsStr(At(doc, ["snapshot_id"]));
    var n :- AsU64(At(doc, ["seq"]));
    var stateHash :- AsHash(At(doc, ["oais", "information_package", "state_hash"]));
    var logHead :- AsHash(At(doc, ["oais", "information_package", "log_head"]));
    var at :- AsInstant(At(doc, ["oais", "information_package", "as_of"]));
    var passportId :- AsStr(At(doc, ["oais", "information_package", "passport_id"]));
    Some(CoreBytes(id, n, passportId, stateHash, logHead, at))
  }

  /** `statement_bytes_from_document`. */
  function StatementFromDocument(doc: Json): Option<bytes> {
    var core :- CoreFromDocument(doc);
    var a :- At(doc, ["oais", "provenance", "anchoring"]);
    var status :- AsStr(Member(a, "status"));
    if status == "unanchored" then
      Some(StatementBytes(core, Anchoring(Unanchored, None, None, None, None, None, None, None, None)))
    else if status == "anchored" then
      var logId :- AsStr(Member(a, "log_id"));
      var n :- AsReceiptId(Member(a, "receipt_id"));
      var treeSize :- AsU64(Member(a, "tree_size"));
      var root :- AsHash(Member(a, "root"));
      Some(StatementBytes(core, Anchoring(Anchored, None, Some(logId), Some(n), Some(treeSize), Some(root), None,
        None, None)))
    else None
  }

  // ---- Sealing --------------------------------------------------------------

  /** `seal`: sign the statement, record key and commitment, then fix the digest
      of the body that results. */
  function Seal(c: Service, key: Key, r: SnapshotRecord): Option<SnapshotRecord> {
    match c.sign(key, Statement(r))
    case None => None
    case Some(sig) =>
      var signed := r.(signature := sig, keyId := c.keyId(key),
        anchoring := r.anchoring.(commitment := Some(Commitment(c, r))));
      Some(signed.(bodyDigest := c.sha256(BodyBytes(c, signed))))
  }

  predicate DigestMatches(c: Service, r: SnapshotRecord) {
    c.sha256(BodyBytes(c, r)) == r.bodyDigest
  }

  /** The record while a create request is building it. */
  class Draft {
    var record: SnapshotRecord

    constructor (n: u64, at: i64, passportId: string, stateHash: Hash, logHead: Hash, submitter: Option<string>,
        stateSize: Option<u64>)
      ensures record == NewRecord(n, at, passportId, stateHash, logHead, submitter, stateSize)
    {
      record := NewRecord(n, at, passportId, stateHash, logHead, submitter, stateSize);
    }

    method SetAnchoring(a: Anchoring)
      modifies this
      ensures record == old(record).(anchoring := a)
    {
      record := record.(anchoring := a);
    }

    /** On a signer error the record is left as it was. */
    method SealWith(c: Service, key: Key) returns (ok: bool)
      modifies this
      ensures ok <==> Seal(c, key, old(record)).Some?
      ensures record == if ok then Seal(c, key, old(record)).value else old(record)
    {
      var sig := c.sign(key, Statement(record));
      if sig.None? { return false; }
      record := record.(signature := sig.value);
      record := record.(keyId := c.keyId(key));
      record := record.(anchoring := record.anchoring.(commitment := Some(Commitment(c, record))));
      record := record.(bodyDigest := c.sha256(BodyBytes(c, record)));
      return true;
    }
  }
}
