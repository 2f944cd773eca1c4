/** The served document as a client reads it: every member by its published name,
    each of its kind, none missing (src/model.rs). */
module DocumentViews {
  import opened Basics
  import opened Text
  import opened Hex
  import opened Json
  import opened Records
  import opened JournalLines
  import opened Documents
  import Utf8
  import Timestamps

  // ---- What a client reads --------------------------------------------------

  datatype SubmissionView = SubmissionView(submitter: Option<string>, submittedAt: i64, passportId: string,
      stateHash: Hash, logHead: Hash, stateSize: Option<u64>)

  datatype PackageView = PackageView(passportId: string, stateHash: Hash, logHead: Hash, asOf: i64,
      commitment: Option<Hash>, statementDigest: Hash)

  datatype SigningView = SigningView(suite: string, keyId: string, domain: string, adapterNote: string)

  datatype OutcomeView = OutcomeView(status: string, reason: Option<string>, logId: Option<string>,
      receiptId: Option<u64>, treeSize: Option<u64>, root: Option<Hash>, loggedAt: Option<i64>)

  datatype ProvenanceView = ProvenanceView(service: string, notarizedAt: i64, signing: SigningView,
      anchoring: OutcomeView, receipt: Option<Json>, signature: bytes, verification: string)

  datatype DocumentView = DocumentView(schema: string, service: string, snapshotId: string, seqNo: u64, asOf: i64,
      profile: string, submission: SubmissionView, package: PackageView, provenance: ProvenanceView)

  /** A member that must be there but may be null; the outer None is a refusal. */
  function Nullable<T>(v: Json, key: string, read: Option<Json> -> Option<T>): Option<Option<T>> {
    var x :- Member(v, key);
    if x == Null then Some(None) else
    var t :- read(Some(x));
    Some(Some(t))
  }

  function ReadSubmission(v: Json): Option<SubmissionView> {
    var submitter :- Nullable(v, "submitter", AsStr);
    var submittedAt :- AsInstant(Member(v, "submitted_at"));
    var passportId :- AsStr(Member(v, "passport_id"));
    var stateHash :- AsHash(Member(v, "state_hash"));
    var logHead :- AsHash(Member(v, "log_head"));
    var stateSize :- Nullable(v, "state_size", AsU64);
    Some(SubmissionView(submitter, submittedAt, passportId, stateHash, logHead, stateSize))
  }

  function ReadPackage(v: Json): Option<PackageView> {
    var passportId :- AsStr(Member(v, "passport_id"));
    var stateHash :- AsHash(Member(v, "state_hash"));
    var logHead :- AsHash(Member(v, "log_head"));
    var asOf :- AsInstant(Member(v, "as_of"));
    var commitment :- Nullable(v, "commitment", AsHash);
    var statementDigest :- AsHash(Member(v, "statement_digest"));
    Some(PackageView(passportId, stateHash, logHead, asOf, commitment, statementDigest))
  }

  function ReadSigning(v: Json): Option<SigningView> {
    var suite :- AsStr(Member(v, "suite"));
    var keyId :- AsStr(Member(v, "key_id"));
    var domain :- AsStr(Member(v, "domain"));
    var adapterNote :- AsStr(Member(v, "adapter_note"));
    Some(SigningView(suite, keyId, domain, adapterNote))
  }

  function ReadOutcome(v: Json): Option<OutcomeView> {
    var status :- AsStr(Member(v, "status"));
    var reason :- Nullable(v, "reason", AsStr);
    var logId :- Nullable(v, "log_id", AsStr);
    var receiptId :- Nullable(v, "receipt_id", AsReceiptId);
    var treeSize :- Nullable(v, "tree_size", AsU64);
    var root :- Nullable(v, "root", AsHash);
    var loggedAt :- Nullable(v, "logged_at", AsInstant);
    Some(OutcomeView(status, reason, logId, receiptId, treeSize, root, loggedAt))
  }

  function ReadProvenance(v: Json): Option<ProvenanceView> {
    var service :- AsStr(Member(v, "service"));
    var notarizedAt :- AsInstant(Member(v, "notarized_at"));
    var signingJson :- Member(v, "signing");
    var signing :- ReadSigning(signingJson);
    var anchoringJson :- Member(v, "anchoring");
    var anchoring :- ReadOutcome(anchoringJson);
    var receipt :- Nullable(v, "receipt", AsObject);
    var signatureText :- AsStr(Member(v, "signature"));
    var signature :- HexDecode(signatureText);
    var verification :- AsStr(Member(v, "verification"));
    Some(ProvenanceView(service, notarizedAt, signing, anchoring, receipt, signature, verification))
  }

  function ReadDocument(v: Json): Option<DocumentView> {
    var schema :- AsStr(Member(v, "schema"));
    var service :- AsStr(Member(v, "service"));
    var snapshotId :- AsStr(Member(v, "snapshot_id"));
    var n :- AsU64(Member(v, "seq"));
    var asOf :- AsInstant(Member(v, "as_of"));
    var oais :- Member(v, "oais");
    var profile :- AsStr(Member(oais, "profile"));
    var submissionJson :- Member(oais, "submission");
    var submission :- ReadSubmission(submissionJson);
    var packageJson :- Member(oais, "information_package");
    var package :- ReadPackage(packageJson);
    var provenanceJson :- Member(oais, "provenance");
    var provenance :- ReadProvenance(provenanceJson);
    Some(DocumentView(schema, service, snapshotId, n, asOf, profile, submission, package, provenance))
  }

  /** From the bytes of a response body. */
  function ReadBody(body: bytes): Option<DocumentView> {
    var text :- Utf8.Decode(body);
    var doc :- ParseDocument(text);
    ReadDocument(doc)
  }

  // ---- What a record shows --------------------------------------------------

  function SubmissionShown(r: SnapshotRecord): SubmissionView {
    SubmissionView(r.submitter, r.notarizedAt, r.passportId, r.stateHash, r.logHead, r.stateSize)
  }

  function PackageShown(c: Service, r: SnapshotRecord): PackageView {
    PackageView(r.passportId, r.stateHash, r.logHead, r.notarizedAt, r.anchoring.commitment, c.sha256(Statement(r)))
  }

  function SigningShown(c: Service, r: SnapshotRecord): SigningView {
    SigningView("ed25519", r.keyId, "tree-head", c.adapterNote)
  }

  function OutcomeShown(a: Anchoring): OutcomeView {
    OutcomeView(match a.status case Anchored => "anchored" case Unanchored => "unanchored",
                a.reason, a.logId, a.receiptSeq, a.treeSize, a.root, a.loggedAt)
  }

  function ProvenanceShown(c: Service, r: SnapshotRecord): ProvenanceView {
    ProvenanceView("unidpp-archive", r.notarizedAt, SigningShown(c, r), OutcomeShown(r.anchoring),
                   r.anchoring.receipt, r.signature, c.verification)
  }

  function Shown(c: Service, r: SnapshotRecord): DocumentView {
    DocumentView("unidpp-archive/snapshot/1", "unidpp-archive", r.snapshotId, r.seqNo, r.notarizedAt, c.oaisProfile,
                 SubmissionShown(r), PackageShown(c, r), ProvenanceShown(c, r))
  }

  // ---- Each section reads back ----------------------------------------------

  lemma NullableText(v: Json, key: string, o: Option<string>)
    requires Member(v, key) == Some(OptText(o))
    ensures Nullable(v, key, AsStr) == Some(o)
  {}

  lemma NullableNum(v: Json, key: string, o: Option<u64>)
    requires Member(v, key) == Some(OptNum(o))
    ensures Nullable(v, key, AsU64) == Some(o)
  {}

  lemma NullableId(v: Json, key: string, o: Option<u64>)
    requires Member(v, key) == Some(OptId(o))
    ensures Nullable(v, key, AsReceiptId) == Some(o)
  {
    if o.Some? { ParseU64OfDecimal(o.value); }
  }

  lemma NullableHash(v: Json, key: string, o: Option<Hash>)
    requires Member(v, key) == Some(OptHash(o))
    ensures Nullable(v, key, AsHash) == Some(o)
  {
    if o.Some? { HashRoundTrip(o.value); }
  }

  lemma NullableInstant(v: Json, key: string, o: Option<i64>)
    requires Member(v, key) == Some(OptInstant(o))
    ensures Nullable(v, key, AsInstant) == if o.None? || Timestamps.Printable(o.value) then Some(o) else None
  {
    hide Timestamps.Print, Timestamps.Parse;
    if o.Some? { Timestamps.PrintParse(o.value); }
  }

  lemma NullableReceipt(v: Json, key: string, o: Option<Json>)
    requires Member(v, key) == Some(OptJson(o))
    ensures Nullable(v, key, AsObject) == Some(o) <==> o.None? || o.value.Obj?
  {}

  lemma InstantShown(t: i64)
    ensures AsInstant(Some(Str(Timestamps.Print(t)))) == if Timestamps.Printable(t) then Some(t) else None
  {
    hide Timestamps.Print, Timestamps.Parse;
    Timestamps.PrintParse(t);
  }

  lemma HashShown(h: Hash)
    ensures AsHash(Some(Str(HashHex(h)))) == Some(h)
  {
    hide HashHex, HashFromHex;
    HashRoundTrip(h);
  }

  lemma SubmissionReads(r: SnapshotRecord)
    ensures ReadSubmission(Object(SubmissionMembers(r)))
         == if Timestamps.Printable(r.notarizedAt) then Some(SubmissionShown(r)) else None
  {
    hide Object, Member, SubmissionMembers, Nullable, AsHash, AsInstant, Timestamps.Printable, Timestamps.Print;
    hide HashHex, OptText, OptNum;
    var v := Object(SubmissionMembers(r));
    SubmissionLookup(r);
    NullableText(v, "submitter", r.submitter);
    NullableNum(v, "state_size", r.stateSize);
    InstantShown(r.notarizedAt);
    HashShown(r.stateHash);
    HashShown(r.logHead);
  }

  lemma PackageReads(c: Service, r: SnapshotRecord)
    ensures ReadPackage(Object(PackageMembers(c, r)))
         == if Timestamps.Printable(r.notarizedAt) then Some(PackageShown(c, r)) else None
  {
    hide Object, Member, PackageMembers, Nullable, AsHash, AsInstant, Timestamps.Printable, Timestamps.Print;
    hide HashHex, OptHash, Statement;
    var v := Object(PackageMembers(c, r));
    PackageLookup(c, r);
    NullableHash(v, "commitment", r.anchoring.commitment);
    InstantShown(r.notarizedAt);
    HashShown(r.stateHash);
    HashShown(r.logHead);
    HashShown(c.sha256(Statement(r)));
  }

  lemma SigningReads(c: Service, r: SnapshotRecord)
    ensures ReadSigning(Object(SigningMembers(c, r))) == Some(SigningShown(c, r))
  {
    hide Object, Member, SigningMembers;
    SigningLookup(c, r);
  }

  predicate OutcomePrints(a: Anchoring) {
    a.loggedAt.Some? ==> Timestamps.Printable(a.loggedAt.value)
  }

  lemma OutcomeReadsBack(c: Service, r: SnapshotRecord)
    ensures ReadOutcome(Object(AnchoringMembers(r.anchoring)))
         == if OutcomePrints(r.anchoring) then Some(OutcomeShown(r.anchoring)) else None
  {
    hide Object, Member, AnchoringMembers, Nullable, OptText, OptId, OptNum, OptHash, OptInstant, Timestamps.Printable;
    var v, a := Object(AnchoringMembers(r.anchoring)), r.anchoring;
    OutcomeLookup(c, r);
    NullableText(v, "reason", a.reason);
    NullableText(v, "log_id", a.logId);
    NullableId(v, "receipt_id", a.receiptSeq);
    NullableNum(v, "tree_size", a.treeSize);
    NullableHash(v, "root", a.root);
    NullableInstant(v, "logged_at", a.loggedAt);
  }

  /** What a record needs for its document to be read in full. */
  predicate Readable(r: SnapshotRecord) {
    && Timestamps.Printable(r.notarizedAt) && OutcomePrints(r.anchoring)
    && (r.anchoring.receipt.Some? ==> r.anchoring.receipt.value.Obj?)
  }

  lemma ProvenanceReads(c: Service, r: SnapshotRecord)
    ensures ReadProvenance(Object(ProvenanceMembers(c, r))) == Some(ProvenanceShown(c, r)) <==> Readable(r)
  {
    hide Object, Member, ProvenanceMembers, SigningMembers, AnchoringMembers, Nullable, ReadSigning, ReadOutcome;
    hide OptJson, Timestamps.Printable, Timestamps.Print, AsInstant, HexEncode, HexDecode, OutcomePrints;
    hide SigningShown, OutcomeShown;
    var v := Object(ProvenanceMembers(c, r));
    ProvenanceLookup(c, r);
    InstantShown(r.notarizedAt);
    SigningReads(c, r);
    OutcomeReadsBack(c, r);
    NullableReceipt(v, "receipt", r.anchoring.receipt);
    HexRoundTrip(r.signature);
  }

  // ---- The document reads back ----------------------------------------------

  /** A client reads from the document every field of the record, each under its
      name, exactly when its instants print and its receipt is an object. */
  lemma DocumentReads(c: Service, r: SnapshotRecord)
    ensures ReadDocument(ToDocument(c, r)) == Some(Shown(c, r)) <==> Readable(r)
  {
    hide ToDocument, Object, Member, OaisMembers, SubmissionMembers, PackageMembers, ProvenanceMembers;
    hide ReadSubmission, ReadPackage, ReadProvenance, SubmissionShown, PackageShown, ProvenanceShown;
    hide Timestamps.Printable, Timestamps.Print, AsInstant, OutcomePrints;
    TopLookup(c, r);
    SectionLookup(c, r);
    InstantShown(r.notarizedAt);
    SubmissionReads(r);
    PackageReads(c, r);
    ProvenanceReads(c, r);
  }

  /** From the bytes of the response on: exactly when, besides, the receipt is at
      most 124 levels deep. */
  lemma BodyIsRead(c: Service, r: SnapshotRecord)
    requires ReceiptWellFormed(r)
    ensures ReadBody(BodyBytes(c, r)) == Some(Shown(c, r)) <==> Readable(r) && ReceiptDepth(r) <= 124
  {
    hide ToDocument, Shown, Readable, ReadDocument, ParseDocument, RenderBody, BodyBytes, ReceiptDepth;
    hide ReceiptWellFormed, Utf8.Decode;
    ServedBytesParse(c, r);
    DocumentReads(c, r);
  }
}
