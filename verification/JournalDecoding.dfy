/** Which JSON values are read as records, outcomes and receipt summaries, whoever
    wrote them, and as which (src/model.rs). */
module JournalDecoding {
  import opened Basics
  import opened Text
  import opened Hex
  import opened Json
  import opened Records
  import Timestamps

  // ---- Members of each kind -------------------------------------------------

  predicate IsText(v: Option<Json>, s: string) {
    v == Some(Str(s))
  }

  predicate IsNumber(v: Option<Json>, n: u64) {
    v == Some(Num(n))
  }

  /** 64 hex digits, in letters of either case. */
  ghost predicate IsHashText(v: Option<Json>, h: Hash) {
    exists x :: v == Some(Str(x)) && LowerAll(x) == HexEncode(h)
  }

  ghost predicate IsHexText(v: Option<Json>, b: bytes) {
    exists x :: v == Some(Str(x)) && SpellsHex(x, b)
  }

  /** Any spelling of the instant that the timestamp parser accepts. */
  ghost predicate IsInstantText(v: Option<Json>, t: i64) {
    exists x :: v == Some(Str(x)) && Timestamps.Parse(x) == Some(t)
  }

  /** A number as a string. */
  ghost predicate IsNumberText(v: Option<Json>, n: u64) {
    exists x :: v == Some(Str(x)) && SpellsU64(x, n)
  }

  predicate IsObject(v: Option<Json>, o: Json) {
    v == Some(o) && o.Obj?
  }

  /** Absent and null are the same. */
  predicate Missing(v: Option<Json>) {
    v == None || v == Some(Null)
  }

  lemma HashMember(v: Option<Json>, h: Hash)
    ensures AsHash(v) == Some(h) <==> IsHashText(v, h)
  {
    if v.Some? && v.value.Str? { HashExactly(v.value.s, h); }
  }

  lemma InstantMember(v: Option<Json>, t: i64)
    ensures AsInstant(v) == Some(t) <==> IsInstantText(v, t)
  {
    hide Timestamps.Parse;
  }

  lemma IdMember(v: Option<Json>, n: u64)
    ensures AsReceiptId(v) == Some(n) <==> IsNumberText(v, n)
  {
    hide ParseU64, SpellsU64;
    if v.Some? && v.value.Str? { ParseU64Exactly(v.value.s, n); }
  }

  predicate MayBeText(v: Option<Json>, o: Option<string>) {
    if o.None? then Missing(v) else IsText(v, o.value)
  }

  lemma OptionalText(v: Json, key: string, o: Option<string>)
    ensures Optional(v, key, AsStr) == Some(o) <==> MayBeText(Member(v, key), o)
  {
    hide Member;
  }

  predicate MayBeNumber(v: Option<Json>, o: Option<u64>) {
    if o.None? then Missing(v) else IsNumber(v, o.value)
  }

  lemma OptionalNumber(v: Json, key: string, o: Option<u64>)
    ensures Optional(v, key, AsU64) == Some(o) <==> MayBeNumber(Member(v, key), o)
  {
    hide Member;
  }

  ghost predicate MayBeId(v: Option<Json>, o: Option<u64>) {
    if o.None? then Missing(v) else IsNumberText(v, o.value)
  }

  lemma OptionalId(v: Json, key: string, o: Option<u64>)
    ensures Optional(v, key, AsReceiptId) == Some(o) <==> MayBeId(Member(v, key), o)
  {
    hide Member, ParseU64, SpellsU64;
    if o.Some? { IdMember(Member(v, key), o.value); }
  }

  ghost predicate MayBeHash(v: Option<Json>, o: Option<Hash>) {
    if o.None? then Missing(v) else IsHashText(v, o.value)
  }

  lemma OptionalHash(v: Json, key: string, o: Option<Hash>)
    ensures Optional(v, key, AsHash) == Some(o) <==> MayBeHash(Member(v, key), o)
  {
    hide Member, AsHash;
    if o.Some? { HashMember(Member(v, key), o.value); }
  }

  ghost predicate MayBeInstant(v: Option<Json>, o: Option<i64>) {
    if o.None? then Missing(v) else IsInstantText(v, o.value)
  }

  lemma OptionalInstant(v: Json, key: string, o: Option<i64>)
    ensures Optional(v, key, AsInstant) == Some(o) <==> MayBeInstant(Member(v, key), o)
  {
    hide Member, AsInstant;
    if o.Some? { InstantMember(Member(v, key), o.value); }
  }

  predicate MayBeObject(v: Option<Json>, o: Option<Json>) {
    if o.None? then Missing(v) else IsObject(v, o.value)
  }

  lemma OptionalObject(v: Json, key: string, o: Option<Json>)
    ensures Optional(v, key, AsObject) == Some(o) <==> MayBeObject(Member(v, key), o)
  {
    hide Member;
  }

  // ---- Anchoring outcomes ---------------------------------------------------

  predicate IsStatus(v: Option<Json>, s: AnchoringStatus) {
    v == Some(Str(if s.Anchored? then "anchored" else "unanchored"))
  }

  /** The value holds this outcome. */
  ghost predicate HoldsOutcome(v: Json, a: Anchoring) {
    && v.Obj? && IsStatus(Member(v, "status"), a.status)
    && MayBeText(Member(v, "reason"), a.reason)
    && MayBeText(Member(v, "log_id"), a.logId)
    && MayBeId(Member(v, "receipt_id"), a.receiptSeq)
    && MayBeNumber(Member(v, "tree_size"), a.treeSize)
    && MayBeHash(Member(v, "root"), a.root)
    && MayBeInstant(Member(v, "logged_at"), a.loggedAt)
    && MayBeHash(Member(v, "commitment"), a.commitment)
    && MayBeObject(Member(v, "receipt"), a.receipt)
    && (a.status.Anchored? ==>
          && a.logId != None && a.receiptSeq != None && a.treeSize != None && a.root != None && a.loggedAt != None
          && a.commitment != None && a.receipt != None)
  }

  /** A value is read as an outcome exactly when it holds it: another status, a
      member of the wrong kind or an anchored outcome short of a part is refused. */
  lemma AnchoringExactly(v: Json, a: Anchoring)
    ensures AnchoringFromJson(v) == Some(a) <==> HoldsOutcome(v, a)
  {
    hide Member, Optional, MayBeText, MayBeId, MayBeNumber, MayBeHash, MayBeInstant, MayBeObject;
    OptionalText(v, "reason", a.reason);
    OptionalText(v, "log_id", a.logId);
    OptionalId(v, "receipt_id", a.receiptSeq);
    OptionalNumber(v, "tree_size", a.treeSize);
    OptionalHash(v, "root", a.root);
    OptionalInstant(v, "logged_at", a.loggedAt);
    OptionalHash(v, "commitment", a.commitment);
    OptionalObject(v, "receipt", a.receipt);
  }

  // ---- Records --------------------------------------------------------------

  ghost predicate HoldsAnchoring(v: Option<Json>, a: Anchoring) {
    v.Some? && HoldsOutcome(v.value, a)
  }

  /** The value holds this record. */
  ghost predicate HoldsRecord(v: Json, r: SnapshotRecord) {
    && v.Obj? && IsNumber(Member(v, "seq"), r.seqNo)
    && IsText(Member(v, "snapshot_id"), r.snapshotId)
    && IsInstantText(Member(v, "notarized_at"), r.notarizedAt)
    && IsText(Member(v, "passport_id"), r.passportId)
    && IsHashText(Member(v, "state_hash"), r.stateHash)
    && IsHashText(Member(v, "log_head"), r.logHead)
    && MayBeText(Member(v, "submitter"), r.submitter)
    && MayBeNumber(Member(v, "state_size"), r.stateSize)
    && HoldsAnchoring(Member(v, "anchoring"), r.anchoring)
    && IsHexText(Member(v, "signature"), r.signature)
    && IsText(Member(v, "key_id"), r.keyId)
    && IsHashText(Member(v, "body_digest"), r.bodyDigest)
  }

  lemma HexMember(v: Option<Json>, b: bytes)
    ensures AsStr(v).Some? && HexDecode(AsStr(v).value) == Some(b) <==> IsHexText(v, b)
  {
    hide HexDecode, SpellsHex;
    if v.Some? && v.value.Str? { DecodesExactly(v.value.s, b); }
  }

  /** A value is read as a record exactly when it holds it. */
  lemma RecordExactly(v: Json, r: SnapshotRecord)
    ensures FromJournal(v) == Some(r) <==> HoldsRecord(v, r)
  {
    hide Member, Optional, MayBeText, MayBeNumber, AnchoringFromJson, HoldsOutcome, AsHash, AsInstant, HexDecode;
    hide IsHashText, IsInstantText, IsHexText;
    InstantMember(Member(v, "notarized_at"), r.notarizedAt);
    HashMember(Member(v, "state_hash"), r.stateHash);
    HashMember(Member(v, "log_head"), r.logHead);
    OptionalText(v, "submitter", r.submitter);
    OptionalNumber(v, "state_size", r.stateSize);
    if Member(v, "anchoring").Some? { AnchoringExactly(Member(v, "anchoring").value, r.anchoring); }
    HexMember(Member(v, "signature"), r.signature);
    HashMember(Member(v, "body_digest"), r.bodyDigest);
  }

  // ---- Receipts -------------------------------------------------------------

  /** A number, or else a receipt id that is one. */
  ghost predicate IsSequence(n: Option<Json>, id: Option<Json>, receiptSeq: u64) {
    if n.Some? && n.value.Num? then n.value.n == receiptSeq else IsNumberText(id, receiptSeq)
  }

  ghost predicate IsTreeHead(v: Option<Json>, treeSize: u64, root: Hash) {
    && v.Some? && v.value.Obj?
    && IsNumber(Member(v.value, "tree_size"), treeSize) && IsHashText(Member(v.value, "root"), root)
  }

  /** The receipt says this of itself. */
  ghost predicate HoldsSummary(v: Json, s: AnchorSummary) {
    && v.Obj? && IsText(Member(v, "log_id"), s.logId) && s.logId != ""
    && IsSequence(Member(v, "seq"), Member(v, "receipt_id"), s.receiptSeq)
    && IsTreeHead(Member(v, "tree_head"), s.treeSize, s.root)
    && IsInstantText(Member(v, "logged_at"), s.loggedAt)
  }

  /** A receipt is taken exactly for what it says of itself, and one that lacks any
      of it, or says it in a wrong kind, is refused. */
  lemma SummaryExactly(v: Json, s: AnchorSummary)
    ensures SummaryFromReceipt(v) == Some(s) <==> HoldsSummary(v, s)
  {
    hide Member, AsHash, AsInstant, AsReceiptId, IsHashText, IsInstantText, IsNumberText;
    IdMember(Member(v, "receipt_id"), s.receiptSeq);
    var head := Member(v, "tree_head");
    if head.Some? { HashMember(Member(head.value, "root"), s.root); }
    InstantMember(Member(v, "logged_at"), s.loggedAt);
  }
}
