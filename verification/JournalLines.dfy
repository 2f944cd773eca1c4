/** The journal line of a record: when it reads back as the record, and what a
    crash or a later append can make of it. */
module JournalLines {
  import opened Basics
  import opened Text
  import opened Hex
  import opened Json
  import opened JsonRoundTrip
  import opened JsonLexing
  import opened Records
  import Timestamps

  // ---- Reading members back -------------------------------------------------

  lemma MemberIs(members: seq<Field>, i: nat, key: string, value: Json)
    requires DistinctKeys(members) && i < |members| && members[i] == Field(key, value)
    ensures Member(Object(members), key) == Some(value)
  {
    ObjectMember(members, i);
  }

  lemma AnchoringKeys(a: Anchoring)
    ensures DistinctKeys(AnchoringJournalMembers(a))
  {
    hide Object, Member, StatusText, OptText, OptId, OptNum, OptHash, OptInstant, OptJson, Timestamps.Print, HashHex;
    hide HexEncode;
  }

  lemma AnchoringLookup(a: Anchoring)
    ensures var v := Object(AnchoringJournalMembers(a));
            && Member(v, "status") == Some(Str(StatusText(a.status)))
            && Member(v, "reason") == Some(OptText(a.reason))
            && Member(v, "log_id") == Some(OptText(a.logId))
            && Member(v, "receipt_id") == Some(OptId(a.receiptSeq))
            && Member(v, "tree_size") == Some(OptNum(a.treeSize))
            && Member(v, "root") == Some(OptHash(a.root))
            && Member(v, "logged_at") == Some(OptInstant(a.loggedAt))
            && Member(v, "commitment") == Some(OptHash(a.commitment))
            && Member(v, "receipt") == Some(OptJson(a.receipt))
  {
    hide Object, Member, StatusText, OptText, OptId, OptNum, OptHash, OptInstant, OptJson, Timestamps.Print, HashHex;
    hide HexEncode;
    AnchoringKeys(a);
    hide DistinctKeys;
    var m := AnchoringJournalMembers(a);
    MemberIs(m, 0, "status", Str(StatusText(a.status)));
    MemberIs(m, 1, "reason", OptText(a.reason));
    MemberIs(m, 2, "log_id", OptText(a.logId));
    MemberIs(m, 3, "receipt_id", OptId(a.receiptSeq));
    MemberIs(m, 4, "tree_size", OptNum(a.treeSize));
    MemberIs(m, 5, "root", OptHash(a.root));
    MemberIs(m, 6, "logged_at", OptInstant(a.loggedAt));
    MemberIs(m, 7, "commitment", OptHash(a.commitment));
    MemberIs(m, 8, "receipt", OptJson(a.receipt));
  }

  lemma RecordKeys(r: SnapshotRecord)
    ensures DistinctKeys(RecordMembers(r))
  {
    hide AnchoringJournalMembers, Object, Member, StatusText, OptText, OptId, OptNum, OptHash, OptInstant, OptJson;
    hide Timestamps.Print, HashHex, HexEncode;
  }

  lemma RecordLookup(r: SnapshotRecord)
    ensures var v := Object(RecordMembers(r));
            && Member(v, "seq") == Some(Num(r.seqNo))
            && Member(v, "snapshot_id") == Some(Str(r.snapshotId))
            && Member(v, "notarized_at") == Some(Str(Timestamps.Print(r.notarizedAt)))
            && Member(v, "passport_id") == Some(Str(r.passportId))
            && Member(v, "state_hash") == Some(Str(HashHex(r.stateHash)))
            && Member(v, "log_head") == Some(Str(HashHex(r.logHead)))
            && Member(v, "submitter") == Some(OptText(r.submitter))
            && Member(v, "state_size") == Some(OptNum(r.stateSize))
            && Member(v, "anchoring") == Some(Object(AnchoringJournalMembers(r.anchoring)))
            && Member(v, "signature") == Some(Str(HexEncode(r.signature)))
            && Member(v, "key_id") == Some(Str(r.keyId))
            && Member(v, "body_digest") == Some(Str(HashHex(r.bodyDigest)))
  {
    hide AnchoringJournalMembers, Object, Member, StatusText, OptText, OptId, OptNum, OptHash, OptInstant, OptJson;
    hide Timestamps.Print, HashHex, HexEncode;
    RecordKeys(r);
    hide DistinctKeys;
    var m := RecordMembers(r);
    MemberIs(m, 0, "seq", Num(r.seqNo));
    MemberIs(m, 1, "snapshot_id", Str(r.snapshotId));
    MemberIs(m, 2, "notarized_at", Str(Timestamps.Print(r.notarizedAt)));
    MemberIs(m, 3, "passport_id", Str(r.passportId));
    MemberIs(m, 4, "state_hash", Str(HashHex(r.stateHash)));
    MemberIs(m, 5, "log_head", Str(HashHex(r.logHead)));
    MemberIs(m, 6, "submitter", OptText(r.submitter));
    MemberIs(m, 7, "state_size", OptNum(r.stateSize));
    MemberIs(m, 8, "anchoring", Object(AnchoringJournalMembers(r.anchoring)));
    MemberIs(m, 9, "signature", Str(HexEncode(r.signature)));
    MemberIs(m, 10, "key_id", Str(r.keyId));
    MemberIs(m, 11, "body_digest", Str(HashHex(r.bodyDigest)));
  }

  lemma TextReads(v: Json, key: string, o: Option<string>)
    requires Member(v, key) == Some(OptText(o))
    ensures Optional(v, key, AsStr) == Some(o)
  {}

  lemma NumReads(v: Json, key: string, o: Option<u64>)
    requires Member(v, key) == Some(OptNum(o))
    ensures Optional(v, key, AsU64) == Some(o)
  {}

  lemma IdReads(v: Json, key: string, o: Option<u64>)
    requires Member(v, key) == Some(OptId(o))
    ensures Optional(v, key, AsReceiptId) == Some(o)
  {
    if o.Some? { ParseU64OfDecimal(o.value); }
  }

  lemma HashReads(v: Json, key: string, o: Option<Hash>)
    requires Member(v, key) == Some(OptHash(o))
    ensures Optional(v, key, AsHash) == Some(o)
  {
    if o.Some? { HashRoundTrip(o.value); }
  }

  lemma InstantReads(v: Json, key: string, o: Option<i64>)
    requires Member(v, key) == Some(OptInstant(o))
    ensures Optional(v, key, AsInstant) == if o.None? || Timestamps.Printable(o.value) then Some(o) else None
  {
    hide Timestamps.Print, Timestamps.Parse;
    if o.Some? { Timestamps.PrintParse(o.value); }
  }

  lemma ReceiptReads(v: Json, key: string, o: Option<Json>)
    requires Member(v, key) == Some(OptJson(o))
    ensures Optional(v, key, AsObject) == Some(o) <==> o.None? || o.value.Obj?
    ensures Optional(v, key, AsObject) in {None, Some(None), Some(o)}
  {}

  // ---- The value round trip -------------------------------------------------

  /** What the journal can carry: instants in the four-digit years, a receipt
      only as an object, and an anchored outcome only with all its parts. */
  predicate JournalableAnchoring(a: Anchoring) {
    WellShaped(a) && (a.loggedAt.Some? ==> Timestamps.Printable(a.loggedAt.value))
  }

  /** As the service makes its outcomes. */
  predicate WellShaped(a: Anchoring) {
    && (a.receipt.Some? ==> a.receipt.value.Obj?)
    && (a.status.Anchored? ==> Complete(a))
  }

  predicate Journalable(r: SnapshotRecord) {
    Timestamps.Printable(r.notarizedAt) && JournalableAnchoring(r.anchoring)
  }

  lemma ObjectIsObj(members: seq<Field>)
    ensures Object(members).Obj?
  {}

  lemma AnchoringRoundTrip(a: Anchoring)
    ensures AnchoringFromJson(Object(AnchoringJournalMembers(a))) == Some(a) <==> JournalableAnchoring(a)
    ensures WellShaped(a) && !JournalableAnchoring(a) ==> AnchoringFromJson(Object(AnchoringJournalMembers(a))) == None
  {
    hide Member, Optional, AnchoringJournalMembers, Object, Timestamps.Printable, OptText, OptNum, OptId, OptHash;
    hide OptInstant, OptJson, Complete;
    var v := Object(AnchoringJournalMembers(a));
    AnchoringLookup(a);
    TextReads(v, "reason", a.reason);
    TextReads(v, "log_id", a.logId);
    IdReads(v, "receipt_id", a.receiptSeq);
    NumReads(v, "tree_size", a.treeSize);
    HashReads(v, "root", a.root);
    InstantReads(v, "logged_at", a.loggedAt);
    HashReads(v, "commitment", a.commitment);
    ReceiptReads(v, "receipt", a.receipt);
    assert v.Obj? by { ObjectIsObj(AnchoringJournalMembers(a)); }
  }

  /** A record survives its journal value exactly when it is Journalable; one that
      is not, but for its instants, decodes to nothing. */
  lemma JournalRoundTrip(r: SnapshotRecord)
    ensures FromJournal(ToJournal(r)) == Some(r) <==> Journalable(r)
    ensures WellShaped(r.anchoring) && !Journalable(r) ==> FromJournal(ToJournal(r)) == None
  {
    hide Member, Optional, RecordMembers, InsertAll, AnchoringFromJson, AnchoringJournalMembers, JournalableAnchoring;
    hide WellShaped;
    hide Timestamps.Print, Timestamps.Parse, Timestamps.Printable, HexDecode, HexEncode, HashFromHex, HashHex;
    var v := ToJournal(r);
    RecordLookup(r);
    AnchoringRoundTrip(r.anchoring);
    HexRoundTrip(r.signature);
    HashRoundTrip(r.stateHash);
    HashRoundTrip(r.logHead);
    HashRoundTrip(r.bodyDigest);
    TextReads(v, "submitter", r.submitter);
    NumReads(v, "state_size", r.stateSize);
    Timestamps.PrintParse(r.notarizedAt);
  }

  // ---- The line round trip --------------------------------------------------

  /** `serde_json::to_string(&record.to_journal_json())`. */
  function Line(r: SnapshotRecord): string {
    Print(ToJournal(r), Compact, 0)
  }

  /** One replayed line: parse, then decode. */
  function DecodeLine(s: string): Option<SnapshotRecord> {
    match ParseDocument(s) case None => None case Some(v) => FromJournal(v)
  }

  ghost predicate ReceiptWellFormed(r: SnapshotRecord) {
    r.anchoring.receipt.Some? ==> WellFormed(r.anchoring.receipt.value)
  }

  function ReceiptDepth(r: SnapshotRecord): nat {
    if r.anchoring.receipt.Some? then Depth(r.anchoring.receipt.value) else 0
  }

  /** The receipt sits two levels down, and the parser stops at 128. */
  predicate Replayable(r: SnapshotRecord) {
    Journalable(r) && ReceiptDepth(r) <= 125
  }

  predicate Scalar(v: Json) {
    !v.Arr? && !v.Obj?
  }

  lemma OptionsAreScalar(o: Option<string>, n: Option<u64>, h: Option<Hash>, t: Option<i64>)
    ensures Scalar(OptText(o)) && Scalar(OptNum(n)) && Scalar(OptId(n)) && Scalar(OptHash(h)) && Scalar(OptInstant(t))
  {}

  /** All members of the anchoring but the receipt, and of the record but the
      anchoring, are scalars. */
  lemma AnchoringScalars(a: Anchoring, i: nat)
    requires i < 8
    ensures Scalar(AnchoringJournalMembers(a)[i].value)
  {
    OptionsAreScalar(a.reason, a.receiptSeq, a.root, a.loggedAt);
    OptionsAreScalar(a.logId, a.treeSize, a.commitment, a.loggedAt);
    hide OptText, OptNum, OptId, OptHash, OptInstant, OptJson;
  }

  lemma RecordScalars(r: SnapshotRecord, i: nat)
    requires i < 12 && i != 8
    ensures Scalar(RecordMembers(r)[i].value)
  {
    OptionsAreScalar(r.submitter, r.stateSize, None, None);
    hide OptText, OptNum, Timestamps.Print, HashHex, HexEncode, Object, AnchoringJournalMembers;
  }

  /** Nothing inside, or only scalars. */
  ghost predicate Flat(v: Json) {
    WellFormed(v) && Depth(v) <= 1
  }

  lemma ScalarIsFlat(v: Json)
    requires Scalar(v)
    ensures Flat(v) && Depth(v) == 0
  {}

  lemma FlatObject(members: seq<Field>)
    requires DistinctKeys(members) && forall i :: 0 <= i < |members| ==> Scalar(members[i].value)
    ensures Flat(Object(members))
  {
    hide Object, DistinctKeys, Scalar;
    forall m | m in members ensures Depth(m.value) <= 0 && WellFormed(m.value) {
      var i :| 0 <= i < |members| && members[i] == m;
      ScalarIsFlat(m.value);
    }
    ObjectDepth(members, 0);
    ObjectWellFormed(members);
  }

  /** Depth and shape of an object all of whose members but one are flat. */
  lemma OneDeepMember(members: seq<Field>, k: nat, d: nat)
    requires DistinctKeys(members) && k < |members| && d >= 1
    requires forall i :: 0 <= i < |members| && i != k ==> Flat(members[i].value)
    ensures Depth(Object(members)) <= 1 + d <==> Depth(members[k].value) <= d
    ensures WellFormed(members[k].value) ==> WellFormed(Object(members))
  {
    hide Object, DistinctKeys;
    ObjectDepth(members, d);
    forall m | m in members ensures m == members[k] || Flat(m.value) {
      var i :| 0 <= i < |members| && members[i] == m;
    }
    assert members[k] in members;
    if WellFormed(members[k].value) { ObjectWellFormed(members); }
  }

  lemma AnchoringDepth(a: Anchoring, d: nat)
    requires d >= 1
    ensures Depth(Object(AnchoringJournalMembers(a))) <= 1 + d <==> Depth(OptJson(a.receipt)) <= d
    ensures (a.receipt.Some? ==> WellFormed(a.receipt.value)) ==> WellFormed(Object(AnchoringJournalMembers(a)))
  {
    hide Object, Scalar, Flat, DistinctKeys, OptText, OptNum, OptId, OptHash, OptInstant;
    var m := AnchoringJournalMembers(a);
    AnchoringKeys(a);
    forall i | 0 <= i < |m| && i != 8 ensures Flat(m[i].value) { AnchoringScalars(a, i); ScalarIsFlat(m[i].value); }
    OneDeepMember(m, 8, d);
  }

  lemma JournalDepth(r: SnapshotRecord)
    ensures Depth(ToJournal(r)) < NESTING_LIMIT <==> ReceiptDepth(r) <= 125
    ensures ReceiptWellFormed(r) ==> WellFormed(ToJournal(r))
  {
    hide Object, Scalar, Flat, DistinctKeys, AnchoringJournalMembers, OptText, OptNum, HashHex, HexEncode;
    hide Timestamps.Print;
    var m := RecordMembers(r);
    RecordKeys(r);
    forall i | 0 <= i < |m| && i != 8 ensures Flat(m[i].value) { RecordScalars(r, i); ScalarIsFlat(m[i].value); }
    OneDeepMember(m, 8, 126);
    AnchoringDepth(r.anchoring, 125);
  }

  /** A journaled line reads back as its record exactly when the record is
      Replayable; a line the service writes otherwise reads as nothing. */
  lemma LineRoundTrip(r: SnapshotRecord)
    requires ReceiptWellFormed(r)
    ensures DecodeLine(Line(r)) == Some(r) <==> Replayable(r)
    ensures WellShaped(r.anchoring) && !Replayable(r) ==> DecodeLine(Line(r)) == None
  {
    hide ToJournal, FromJournal, Print, ParseDocument, Depth, Journalable, WellShaped;
    JournalDepth(r);
    DocumentRoundTrip(ToJournal(r), Compact);
    JournalRoundTrip(r);
  }

  lemma AnchoringComesFirst(r: SnapshotRecord)
    ensures ToJournal(r).Obj? && ToJournal(r).fields != [] && ToJournal(r).fields[0].key == "anchoring"
  {
    hide Timestamps.Print, HashHex, HexEncode, InsertAll;
    RecordKeys(r);
    SmallestKeyFirst(RecordMembers(r), 8);
  }

  lemma AnchoringQuoted()
    ensures "\"anc" <= Quote("anchoring")
  {
    var s := "anchoring";
    assert s[1..][0] == 'n' && s[1..][1..][0] == 'c';
    assert Escape(s) == "a" + Escape(s[1..]);
    assert Escape(s[1..]) == "n" + Escape(s[1..][1..]);
    assert Escape(s[1..][1..]) == "c" + Escape(s[1..][1..][1..]);
  }

  /** Every line starts the same way, is a bare object, and holds no newline. */
  lemma LineShape(r: SnapshotRecord)
    requires ReceiptWellFormed(r)
    ensures "{\"anc" <= Line(r)
    ensures BareObject(Line(r), Depth(ToJournal(r)) + 1)
    ensures forall c <- Line(r) :: c as int >= 0x20
  {
    hide ToJournal, WellFormed, ParseValue, Print;
    var v := ToJournal(r);
    AnchoringComesFirst(r);
    LineStart(v.fields);
    JournalDepth(r);
    ValueParses(v, Compact, 0, "", Depth(v) + 1);
    assert Line(r) + "" == Line(r);
    CompactIsOneLine(v, 0);
  }

  lemma LineStart(fields: seq<Field>)
    requires fields != [] && fields[0].key == "anchoring"
    ensures "{\"anc" <= Print(Obj(fields), Compact, 0)
  {
    AnchoringQuoted();
    hide Quote;
    var q := Quote("anchoring");
    var p := Print(fields[0].value, Compact, 1);
    var more := if |fields| == 1 then "" else "," + PrintFields(fields[1..], Compact, 1);
    assert PrintFields(fields, Compact, 1) == "" + q + ":" + p + more;
    hide PrintFields;
    assert PrintFields(fields, Compact, 1)[..4] == q[..4] == "\"anc";
  }

  /** A line cut anywhere inside does not decode. */
  lemma CutLineFails(r: SnapshotRecord, k: nat)
    requires ReceiptWellFormed(r) && 0 < k < |Line(r)|
    ensures DecodeLine(Line(r)[..k]) == None
  {
    hide Line, ParseDocument, FromJournal, Depth, ToJournal;
    LineShape(r);
    PrefixDoesNotParse(Line(r), Depth(ToJournal(r)) + 1, k);
  }

  /** A line glued to a non-blank tail, whole or cut short, does not decode. */
  lemma GluedLineFails(t: string, r: SnapshotRecord, j: nat)
    requires ReceiptWellFormed(r) && !IsBlank(t) && 0 < j <= |Line(r)|
    ensures DecodeLine(t + Line(r)[..j]) == None
  {
    hide Line, ParseDocument, Depth, ToJournal;
    LineShape(r);
    BlankMeansAllWhitespace(t);
    assert !AllSpace(t);
    GluedDoesNotParse(t, Line(r), Depth(ToJournal(r)) + 1, j);
  }

  /** A blank line decodes to nothing. */
  lemma BlankDoesNotDecode(s: string)
    requires IsBlank(s)
    ensures DecodeLine(s) == None
  {
    hide FromJournal, IsBlank, SkipSpace, ParseToken, IsWhitespace;
    BlankMeansAllWhitespace(s);
    var w := SpaceConsumed(s);
    var t := SkipSpace(s);
    assert t != "" ==> s[|w|] == t[0];
    NoTokenStartsWithSpace(t, NESTING_LIMIT);
  }

  lemma NoTokenStartsWithSpace(t: string, room: nat)
    requires t == "" || IsWhitespace(t[0])
    ensures ParseToken(t, room) == Bad
  {}
}
