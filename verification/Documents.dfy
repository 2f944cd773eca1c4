/** The served document: what a verifier rebuilds from it, why sealing is well
    founded, and when the served bytes read back (src/model.rs). */
module Documents {
  import opened Basics
  import opened Text
  import opened Hex
  import opened Json
  import opened JsonRoundTrip
  import opened Records
  import opened JournalLines
  import Utf8
  import Timestamps

  // ---- Finding members ------------------------------------------------------

  lemma AtOne(v: Json, k: string)
    ensures At(v, [k]) == Member(v, k)
  {
    assert [k][1..] == [];
    if Member(v, k).Some? { assert At(Member(v, k).value, []) == Member(v, k); }
  }

  lemma AtMore(v: Json, k: string, rest: seq<string>, w: Json)
    requires Member(v, k) == Some(w)
    ensures At(v, [k] + rest) == At(w, rest)
  {
    assert ([k] + rest)[1..] == rest;
  }

  lemma AtThree(v: Json, a: string, b: string, k: string, x: Json, y: Json)
    requires Member(v, a) == Some(x) && Member(x, b) == Some(y)
    ensures At(v, [a, b, k]) == Member(y, k)
  {
    hide At;
    AtMore(v, a, [b, k], x);
    assert [a] + [b, k] == [a, b, k];
    AtMore(x, b, [k], y);
    assert [b] + [k] == [b, k];
    AtOne(y, k);
  }

  lemma AtFour(v: Json, a: string, b: string, d: string, k: string, x: Json, y: Json, z: Json)
    requires Member(v, a) == Some(x) && Member(x, b) == Some(y) && Member(y, d) == Some(z)
    ensures At(v, [a, b, d, k]) == Member(z, k)
  {
    hide At;
    AtMore(v, a, [b, d, k], x);
    assert [a] + [b, d, k] == [a, b, d, k];
    AtThree(x, b, d, k, y, z);
  }

  lemma DocumentKeys(c: Service, r: SnapshotRecord)
    ensures DistinctKeys(DocumentMembers(c, r))
  {
    hide OaisMembers, Object, Statement, OptText, OptNum, OptId, OptHash, OptInstant, OptJson, StatusText;
    hide Timestamps.Print, HashHex, HexEncode;
  }

  lemma OaisKeys(c: Service, r: SnapshotRecord)
    ensures DistinctKeys(OaisMembers(c, r))
  {
    hide SubmissionMembers, PackageMembers, ProvenanceMembers, Object, Statement, OptText, OptNum, OptId, OptHash;
    hide OptInstant, OptJson, StatusText, Timestamps.Print, HashHex, HexEncode;
  }

  lemma SubmissionKeys(r: SnapshotRecord)
    ensures DistinctKeys(SubmissionMembers(r))
  {
    hide Object, Statement, OptText, OptNum, OptId, OptHash, OptInstant, OptJson, StatusText, Timestamps.Print;
    hide HashHex, HexEncode;
  }

  lemma PackageKeys(c: Service, r: SnapshotRecord)
    ensures DistinctKeys(PackageMembers(c, r))
  {
    hide Object, Statement, OptText, OptNum, OptId, OptHash, OptInstant, OptJson, StatusText, Timestamps.Print;
    hide HashHex, HexEncode;
  }

  lemma ProvenanceKeys(c: Service, r: SnapshotRecord)
    ensures DistinctKeys(ProvenanceMembers(c, r))
  {
    hide SigningMembers, AnchoringMembers, Object, Statement, OptText, OptNum, OptId, OptHash, OptInstant, OptJson;
    hide StatusText, Timestamps.Print, HashHex, HexEncode;
  }

  lemma SigningKeys(c: Service, r: SnapshotRecord)
    ensures DistinctKeys(SigningMembers(c, r))
  {
    hide Object, Statement, OptText, OptNum, OptId, OptHash, OptInstant, OptJson, StatusText, Timestamps.Print;
    hide HashHex, HexEncode;
  }

  lemma OutcomeKeys(a: Anchoring)
    ensures DistinctKeys(AnchoringMembers(a))
  {
    hide Object, Statement, OptText, OptNum, OptId, OptHash, OptInstant, OptJson, StatusText, Timestamps.Print;
    hide HashHex, HexEncode;
  }

  lemma TopLookup(c: Service, r: SnapshotRecord)
    ensures var v := ToDocument(c, r);
            && v.Obj?
            && Member(v, "schema") == Some(Str(SCHEMA))
            && Member(v, "service") == Some(Str(SERVICE_ID))
            && Member(v, "snapshot_id") == Some(Str(r.snapshotId))
            && Member(v, "seq") == Some(Num(r.seqNo))
            && Member(v, "as_of") == Some(Str(Timestamps.Print(r.notarizedAt)))
            && Member(v, "oais") == Some(Object(OaisMembers(c, r)))
  {
    ObjectIsObj(DocumentMembers(c, r));
    hide Object, Member, OaisMembers, Timestamps.Print;
    DocumentKeys(c, r);
    hide DistinctKeys;
    var m := DocumentMembers(c, r);
    MemberIs(m, 0, "schema", Str(SCHEMA));
    MemberIs(m, 1, "service", Str(SERVICE_ID));
    MemberIs(m, 2, "snapshot_id", Str(r.snapshotId));
    MemberIs(m, 3, "seq", Num(r.seqNo));
    MemberIs(m, 4, "as_of", Str(Timestamps.Print(r.notarizedAt)));
    MemberIs(m, 5, "oais", Object(OaisMembers(c, r)));
  }

  lemma SectionLookup(c: Service, r: SnapshotRecord)
    ensures var v := Object(OaisMembers(c, r));
            && Member(v, "profile") == Some(Str(c.oaisProfile))
            && Member(v, "submission") == Some(Object(SubmissionMembers(r)))
            && Member(v, "information_package") == Some(Object(PackageMembers(c, r)))
            && Member(v, "provenance") == Some(Object(ProvenanceMembers(c, r)))
  {
    hide Object, Member, SubmissionMembers, PackageMembers, ProvenanceMembers;
    OaisKeys(c, r);
    hide DistinctKeys;
    var m := OaisMembers(c, r);
    MemberIs(m, 0, "profile", Str(c.oaisProfile));
    MemberIs(m, 1, "submission", Object(SubmissionMembers(r)));
    MemberIs(m, 2, "information_package", Object(PackageMembers(c, r)));
    MemberIs(m, 3, "provenance", Object(ProvenanceMembers(c, r)));
  }

  lemma SubmissionLookup(r: SnapshotRecord)
    ensures var v := Object(SubmissionMembers(r));
            && Member(v, "submitter") == Some(OptText(r.submitter))
            && Member(v, "submitted_at") == Some(Str(Timestamps.Print(r.notarizedAt)))
            && Member(v, "passport_id") == Some(Str(r.passportId))
            && Member(v, "state_hash") == Some(Str(HashHex(r.stateHash)))
            && Member(v, "log_head") == Some(Str(HashHex(r.logHead)))
            && Member(v, "state_size") == Some(OptNum(r.stateSize))
  {
    hide Object, Member, OptText, OptNum, Timestamps.Print, HashHex;
    SubmissionKeys(r);
    hide DistinctKeys;
    var m := SubmissionMembers(r);
    MemberIs(m, 0, "submitter", OptText(r.submitter));
    MemberIs(m, 1, "submitted_at", Str(Timestamps.Print(r.notarizedAt)));
    MemberIs(m, 2, "passport_id", Str(r.passportId));
    MemberIs(m, 3, "state_hash", Str(HashHex(r.stateHash)));
    MemberIs(m, 4, "log_head", Str(HashHex(r.logHead)));
    MemberIs(m, 5, "state_size", OptNum(r.stateSize));
  }

  lemma PackageLookup(c: Service, r: SnapshotRecord)
    ensures var v := Object(PackageMembers(c, r));
            && Member(v, "passport_id") == Some(Str(r.passportId))
            && Member(v, "state_hash") == Some(Str(HashHex(r.stateHash)))
            && Member(v, "log_head") == Some(Str(HashHex(r.logHead)))
            && Member(v, "as_of") == Some(Str(Timestamps.Print(r.notarizedAt)))
            && Member(v, "commitment") == Some(OptHash(r.anchoring.commitment))
            && Member(v, "statement_digest") == Some(Str(HashHex(c.sha256(Statement(r)))))
  {
    hide Object, Member, Statement, OptHash, Timestamps.Print, HashHex;
    PackageKeys(c, r);
    hide DistinctKeys;
    var m := PackageMembers(c, r);
    MemberIs(m, 0, "passport_id", Str(r.passportId));
    MemberIs(m, 1, "state_hash", Str(HashHex(r.stateHash)));
    MemberIs(m, 2, "log_head", Str(HashHex(r.logHead)));
    MemberIs(m, 3, "as_of", Str(Timestamps.Print(r.notarizedAt)));
    MemberIs(m, 4, "commitment", OptHash(r.anchoring.commitment));
    MemberIs(m, 5, "statement_digest", Str(HashHex(c.sha256(Statement(r)))));
  }

  lemma ProvenanceLookup(c: Service, r: SnapshotRecord)
    ensures var v := Object(ProvenanceMembers(c, r));
            && Member(v, "service") == Some(Str(SERVICE_ID))
            && Member(v, "notarized_at") == Some(Str(Timestamps.Print(r.notarizedAt)))
            && Member(v, "signing") == Some(Object(SigningMembers(c, r)))
            && Member(v, "anchoring") == Some(Object(AnchoringMembers(r.anchoring)))
            && Member(v, "receipt") == Some(OptJson(r.anchoring.receipt))
            && Member(v, "signature") == Some(Str(HexEncode(r.signature)))
            && Member(v, "verification") == Some(Str(c.verification))
  {
    hide Object, Member, SigningMembers, AnchoringMembers, OptJson, HexEncode, Timestamps.Print;
    ProvenanceKeys(c, r);
    hide DistinctKeys;
    var m := ProvenanceMembers(c, r);
    MemberIs(m, 0, "service", Str(SERVICE_ID));
    MemberIs(m, 1, "notarized_at", Str(Timestamps.Print(r.notarizedAt)));
    MemberIs(m, 2, "signing", Object(SigningMembers(c, r)));
    MemberIs(m, 3, "anchoring", Object(AnchoringMembers(r.anchoring)));
    MemberIs(m, 4, "receipt", OptJson(r.anchoring.receipt));
    MemberIs(m, 5, "signature", Str(HexEncode(r.signature)));
    MemberIs(m, 6, "verification", Str(c.verification));
  }

  lemma SigningLookup(c: Service, r: SnapshotRecord)
    ensures var v := Object(SigningMembers(c, r));
            && Member(v, "suite") == Some(Str("ed25519"))
            && Member(v, "key_id") == Some(Str(r.keyId))
            && Member(v, "domain") == Some(Str("tree-head"))
            && Member(v, "adapter_note") == Some(Str(c.adapterNote))
  {
    hide Object, Member;
    SigningKeys(c, r);
    hide DistinctKeys;
    var m := SigningMembers(c, r);
    MemberIs(m, 0, "suite", Str("ed25519"));
    MemberIs(m, 1, "key_id", Str(r.keyId));
    MemberIs(m, 2, "domain", Str("tree-head"));
    MemberIs(m, 3, "adapter_note", Str(c.adapterNote));
  }

  lemma OutcomeLookup(c: Service, r: SnapshotRecord)
    ensures var v, a := Object(AnchoringMembers(r.anchoring)), r.anchoring;
            && Member(v, "status") == Some(Str(StatusText(a.status)))
            && Member(v, "reason") == Some(OptText(a.reason))
            && Member(v, "log_id") == Some(OptText(a.logId))
            && Member(v, "receipt_id") == Some(OptId(a.receiptSeq))
            && Member(v, "tree_size") == Some(OptNum(a.treeSize))
            && Member(v, "root") == Some(OptHash(a.root))
            && Member(v, "logged_at") == Some(OptInstant(a.loggedAt))
  {
    hide Object, Member, StatusText, OptText, OptId, OptNum, OptHash, OptInstant;
    OutcomeKeys(r.anchoring);
    hide DistinctKeys;
    var m, a := AnchoringMembers(r.anchoring), r.anchoring;
    MemberIs(m, 0, "status", Str(StatusText(a.status)));
    MemberIs(m, 1, "reason", OptText(a.reason));
    MemberIs(m, 2, "log_id", OptText(a.logId));
    MemberIs(m, 3, "receipt_id", OptId(a.receiptSeq));
    MemberIs(m, 4, "tree_size", OptNum(a.treeSize));
    MemberIs(m, 5, "root", OptHash(a.root));
    MemberIs(m, 6, "logged_at", OptInstant(a.loggedAt));
  }

  // ---- Self-verification ----------------------------------------------------

  lemma PackagePaths(c: Service, r: SnapshotRecord)
    ensures var doc := ToDocument(c, r);
            && At(doc, ["oais", "information_package", "passport_id"]) == Some(Str(r.passportId))
            && At(doc, ["oais", "information_package", "state_hash"]) == Some(Str(HashHex(r.stateHash)))
            && At(doc, ["oais", "information_package", "log_head"]) == Some(Str(HashHex(r.logHead)))
            && At(doc, ["oais", "information_package", "as_of"]) == Some(Str(Timestamps.Print(r.notarizedAt)))
            && At(doc, ["oais", "information_package", "commitment"]) == Some(OptHash(r.anchoring.commitment))
            && At(doc, ["oais", "information_package", "statement_digest"])
              == Some(Str(HashHex(c.sha256(Statement(r)))))
  {
    hide At, ToDocument, Object, Member, PackageMembers, OaisMembers;
    var doc, oais, package := ToDocument(c, r), Object(OaisMembers(c, r)), Object(PackageMembers(c, r));
    TopLookup(c, r);
    SectionLookup(c, r);
    PackageLookup(c, r);
    AtThree(doc, "oais", "information_package", "passport_id", oais, package);
    AtThree(doc, "oais", "information_package", "state_hash", oais, package);
    AtThree(doc, "oais", "information_package", "log_head", oais, package);
    AtThree(doc, "oais", "information_package", "as_of", oais, package);
    AtThree(doc, "oais", "information_package", "commitment", oais, package);
    AtThree(doc, "oais", "information_package", "statement_digest", oais, package);
  }

  lemma ProvenancePaths(c: Service, r: SnapshotRecord)
    ensures var doc := ToDocument(c, r);
            && At(doc, ["oais", "provenance", "anchoring"]) == Some(Object(AnchoringMembers(r.anchoring)))
            && At(doc, ["oais", "provenance", "receipt"]) == Some(OptJson(r.anchoring.receipt))
            && At(doc, ["oais", "provenance", "signature"]) == Some(Str(HexEncode(r.signature)))
            && At(doc, ["oais", "provenance", "signing", "key_id"]) == Some(Str(r.keyId))
  {
    hide At, ToDocument, Object, Member, ProvenanceMembers, OaisMembers, SigningMembers;
    var doc, oais, provenance := ToDocument(c, r), Object(OaisMembers(c, r)), Object(ProvenanceMembers(c, r));
    TopLookup(c, r);
    SectionLookup(c, r);
    ProvenanceLookup(c, r);
    AtThree(doc, "oais", "provenance", "anchoring", oais, provenance);
    AtThree(doc, "oais", "provenance", "receipt", oais, provenance);
    AtThree(doc, "oais", "provenance", "signature", oais, provenance);
    SigningLookup(c, r);
    AtFour(doc, "oais", "provenance", "signing", "key_id", oais, provenance, Object(SigningMembers(c, r)));
  }

  /** The core statement is rebuilt from the document alone exactly when its
      instant lies in the four-digit years; otherwise nothing is. */
  lemma CoreRebuilds(c: Service, r: SnapshotRecord)
    ensures CoreFromDocument(ToDocument(c, r)) == if Timestamps.Printable(r.notarizedAt) then Some(Core(r)) else None
  {
    hide At, ToDocument, Member, HashHex, HashFromHex, Timestamps.Print, Timestamps.Parse, Timestamps.Printable;
    hide CoreBytes;
    var doc := ToDocument(c, r);
    TopLookup(c, r);
    PackagePaths(c, r);
    AtOne(doc, "service");
    AtOne(doc, "snapshot_id");
    AtOne(doc, "seq");
    HashRoundTrip(r.stateHash);
    HashRoundTrip(r.logHead);
    Timestamps.PrintParse(r.notarizedAt);
  }

  /** What the signed bytes need of an anchored outcome. */
  predicate OutcomeSigned(a: Anchoring) {
    a.status.Anchored? ==> a.logId.Some? && a.receiptSeq.Some? && a.treeSize.Some? && a.root.Some?
  }

  lemma OutcomeReads(c: Service, r: SnapshotRecord)
    ensures var v, a := Object(AnchoringMembers(r.anchoring)), r.anchoring;
            && AsStr(Member(v, "status")) == Some(StatusText(a.status))
            && AsStr(Member(v, "log_id")) == a.logId
            && AsReceiptId(Member(v, "receipt_id")) == a.receiptSeq
            && AsU64(Member(v, "tree_size")) == a.treeSize
            && AsHash(Member(v, "root")) == a.root
  {
    hide Object, Member, AnchoringMembers, HashHex, HashFromHex, ParseU64, Decimal;
    OutcomeLookup(c, r);
    var a := r.anchoring;
    if a.receiptSeq.Some? { ParseU64OfDecimal(a.receiptSeq.value); }
    if a.root.Some? { HashRoundTrip(a.root.value); }
  }

  /** The signed statement is rebuilt from the document alone, byte for byte,
      exactly when the instant prints and an anchored outcome has its parts. */
  lemma StatementRebuilds(c: Service, r: SnapshotRecord)
    ensures StatementFromDocument(ToDocument(c, r))
         == if Timestamps.Printable(r.notarizedAt) && OutcomeSigned(r.anchoring) then Some(Statement(r)) else None
  {
    hide At, ToDocument, Object, Member, AnchoringMembers, CoreFromDocument, Core, Timestamps.Printable, AsHash;
    hide AsReceiptId, AsU64;
    CoreRebuilds(c, r);
    ProvenancePaths(c, r);
    OutcomeReads(c, r);
  }

  // ---- Sealing --------------------------------------------------------------

  /** Sealing is well founded: the rendered body does not depend on the digest
      that is computed from it. */
  lemma BodyIgnoresDigest(c: Service, r: SnapshotRecord, h: Hash)
    ensures BodyBytes(c, r.(bodyDigest := h)) == BodyBytes(c, r)
  {
    hide Object, Print, Utf8.Encode, SigningMembers, Statement, Timestamps.Print, HashHex, HexEncode, OptText, OptNum;
    hide OptHash, OptJson, AnchoringMembers;
    var s := r.(bodyDigest := h);
    StatementIgnoresSeal(r, s);
    assert SigningMembers(c, s) == SigningMembers(c, r) by { SigningNeedsKeyId(c, r, s); }
  }

  lemma SigningNeedsKeyId(c: Service, r: SnapshotRecord, s: SnapshotRecord)
    requires r.keyId == s.keyId
    ensures SigningMembers(c, s) == SigningMembers(c, r)
  {}

  /** Equal up to what sealing sets. */
  predicate SameUnsealed(r: SnapshotRecord, s: SnapshotRecord) {
    s == r.(signature := s.signature, keyId := s.keyId, bodyDigest := s.bodyDigest,
            anchoring := r.anchoring.(commitment := s.anchoring.commitment))
  }

  lemma StatementIgnoresSeal(r: SnapshotRecord, s: SnapshotRecord)
    requires SameUnsealed(r, s)
    ensures Core(s) == Core(r) && Statement(s) == Statement(r)
  {
    hide CoreBytes;
  }

  /** Sealing forgets any earlier seal. */
  lemma SealForgets(c: Service, key: Key, r: SnapshotRecord, s: SnapshotRecord)
    requires SameUnsealed(r, s)
    ensures Seal(c, key, r) == Seal(c, key, s)
  {
    hide Core, Statement, BodyBytes;
    StatementIgnoresSeal(r, s);
    if c.sign(key, Statement(r)).Some? {
      var sig := c.sign(key, Statement(r)).value;
      var x := r.(signature := sig, keyId := c.keyId(key),
        anchoring := r.anchoring.(commitment := Some(Commitment(c, r))));
      var y := s.(signature := sig, keyId := c.keyId(key),
        anchoring := s.anchoring.(commitment := Some(Commitment(c, s))));
      assert y == x.(bodyDigest := s.bodyDigest);
      BodyIgnoresDigest(c, x, s.bodyDigest);
    }
  }

  /** Sealing leaves the signed bytes alone, fixes the digest of the body it
      results in, commits to the core the log was given, and is idempotent. */
  lemma SealIsStable(c: Service, key: Key, r: SnapshotRecord)
    requires Seal(c, key, r).Some?
    ensures var s := Seal(c, key, r).value;
            && SameUnsealed(r, s)
            && Statement(s) == Statement(r) && Core(s) == Core(r)
            && DigestMatches(c, s) && s.keyId == c.keyId(key)
            && s.anchoring.commitment == Some(c.sha256(Core(s))) == Some(Commitment(c, r))
            && c.sign(key, Statement(s)) == Some(s.signature)
            && Seal(c, key, s) == Some(s)
  {
    hide Core, Statement, BodyBytes;
    var s := Seal(c, key, r).value;
    StatementIgnoresSeal(r, s);
    SealForgets(c, key, r, s);
    var signed := s.(bodyDigest := r.bodyDigest);
    BodyIgnoresDigest(c, signed, s.bodyDigest);
    assert signed.(bodyDigest := s.bodyDigest) == s;
  }

  /** What a verifier reads out of a document on its own: the statement it
      rebuilds carries the signature of the key the document names, and both
      digests are those of the rebuilt bytes. */
  ghost predicate VerifiesAlone(c: Service, key: Key, doc: Json) {
    && AsStr(At(doc, ["oais", "provenance", "signing", "key_id"])) == Some(c.keyId(key))
    && var core, statement := CoreFromDocument(doc), StatementFromDocument(doc);
       var signature := AsStr(At(doc, ["oais", "provenance", "signature"]));
    && core.Some? && statement.Some? && signature.Some? && HexDecode(signature.value).Some?
    && c.verify(c.publicKey(key), statement.value, HexDecode(signature.value).value)
    && AsHash(At(doc, ["oais", "information_package", "commitment"])) == Some(c.sha256(core.value))
    && AsHash(At(doc, ["oais", "information_package", "statement_digest"])) == Some(c.sha256(statement.value))
  }

  /** A sealed record's document verifies on its own under the notary's key. */
  lemma SealedDocumentVerifies(c: Service, key: Key, r: SnapshotRecord)
    requires SignaturesVerify(c) && Seal(c, key, r).Some?
    requires Timestamps.Printable(r.notarizedAt) && OutcomeSigned(r.anchoring)
    ensures VerifiesAlone(c, key, ToDocument(c, Seal(c, key, r).value))
  {
    hide At, ToDocument, Core, Statement, Seal, DigestMatches, Timestamps.Printable, CoreFromDocument;
    hide StatementFromDocument;
    hide HashFromHex, HashHex, HexDecode, HexEncode;
    SealIsStable(c, key, r);
    var s := Seal(c, key, r).value;
    CoreRebuilds(c, s);
    StatementRebuilds(c, s);
    PackagePaths(c, s);
    ProvenancePaths(c, s);
    HexRoundTrip(s.signature);
    HashRoundTrip(c.sha256(Core(s)));
    HashRoundTrip(c.sha256(Statement(s)));
  }

  // ---- Receipts -------------------------------------------------------------

  /** A receipt the summary is taken from can be journaled with it whenever the
      log's instant prints, and its outcome is complete and signed in full. */
  lemma AcceptedReceiptIsJournalable(v: Json, h: Hash)
    requires SummaryFromReceipt(v).Some?
    ensures var s := SummaryFromReceipt(v).value;
            var a := AnchoredBy(s, v, h);
            && Complete(a) && OutcomeSigned(a) && s.logId != ""
            && (JournalableAnchoring(a) <==> Timestamps.Printable(s.loggedAt))
            && AsInstant(Member(v, "logged_at")) == Some(s.loggedAt)
  {
    hide Member, AsHash, Timestamps.Printable, AsReceiptId;
  }

  // ---- The served bytes -----------------------------------------------------

  lemma FlatSections(c: Service, r: SnapshotRecord)
    ensures Flat(Object(SubmissionMembers(r))) && Flat(Object(PackageMembers(c, r)))
    ensures Flat(Object(SigningMembers(c, r))) && Flat(Object(AnchoringMembers(r.anchoring)))
  {
    hide Object, DistinctKeys, Statement, OptText, OptNum, OptId, OptHash, OptInstant, StatusText, Timestamps.Print;
    hide HashHex;
    SubmissionKeys(r);
    PackageKeys(c, r);
    SigningKeys(c, r);
    OutcomeKeys(r.anchoring);
    OptionsAreScalar(r.submitter, r.stateSize, r.anchoring.commitment, None);
    FlatObject(SubmissionMembers(r));
    FlatObject(PackageMembers(c, r));
    FlatObject(SigningMembers(c, r));
    var a := r.anchoring;
    OptionsAreScalar(a.reason, a.receiptSeq, a.root, a.loggedAt);
    OptionsAreScalar(a.logId, a.treeSize, a.root, a.loggedAt);
    FlatObject(AnchoringMembers(a));
  }

  lemma ProvenanceParts(c: Service, r: SnapshotRecord, i: nat)
    requires i < 7 && i != 4
    ensures Flat(ProvenanceMembers(c, r)[i].value)
  {
    hide Object, Flat, SigningMembers, AnchoringMembers, SubmissionMembers, PackageMembers, Timestamps.Print;
    hide HexEncode, OptJson;
    FlatSections(c, r);
    var v := ProvenanceMembers(c, r)[i].value;
    if i != 2 && i != 3 {
      assert Scalar(v);
      ScalarIsFlat(v);
    }
  }

  lemma ProvenanceDepth(c: Service, r: SnapshotRecord, d: nat)
    requires d >= 1
    ensures Depth(Object(ProvenanceMembers(c, r))) <= 1 + d <==> ReceiptDepth(r) <= d
    ensures ReceiptWellFormed(r) ==> WellFormed(Object(ProvenanceMembers(c, r)))
  {
    hide Object, DistinctKeys, Flat, SigningMembers, AnchoringMembers, Timestamps.Print, HexEncode;
    ProvenanceKeys(c, r);
    var m := ProvenanceMembers(c, r);
    forall i | 0 <= i < |m| && i != 4 ensures Flat(m[i].value) { ProvenanceParts(c, r, i); }
    OneDeepMember(m, 4, d);
  }

  lemma OaisDepth(c: Service, r: SnapshotRecord, d: nat)
    requires d >= 1
    ensures Depth(Object(OaisMembers(c, r))) <= 2 + d <==> ReceiptDepth(r) <= d
    ensures ReceiptWellFormed(r) ==> WellFormed(Object(OaisMembers(c, r)))
  {
    hide Object, DistinctKeys, SubmissionMembers, PackageMembers, ProvenanceMembers;
    OaisKeys(c, r);
    FlatSections(c, r);
    ProvenanceDepth(c, r, d);
    var m := OaisMembers(c, r);
    forall i | 0 <= i < |m| && i != 3 ensures Flat(m[i].value) {}
    hide Flat;
    OneDeepMember(m, 3, d + 1);
  }

  lemma DocumentDepth(c: Service, r: SnapshotRecord)
    ensures Depth(ToDocument(c, r)) < NESTING_LIMIT <==> ReceiptDepth(r) <= 124
    ensures ReceiptWellFormed(r) ==> WellFormed(ToDocument(c, r))
  {
    hide Object, DistinctKeys, OaisMembers, Timestamps.Print;
    DocumentKeys(c, r);
    OaisDepth(c, r, 124);
    var m := DocumentMembers(c, r);
    assert forall i :: 0 <= i < |m| && i != 5 ==> Scalar(m[i].value);
    hide Flat, Scalar, DocumentMembers;
    forall i | 0 <= i < |m| && i != 5 ensures Flat(m[i].value) { ScalarIsFlat(m[i].value); }
    OneDeepMember(m, 5, 126);
  }

  /** A client reads the served bytes back as the document, unless the log's
      receipt nests deeper than 124 levels; then it cannot read them at all. */
  lemma ServedBytesParse(c: Service, r: SnapshotRecord)
    requires ReceiptWellFormed(r)
    ensures Utf8.Decode(BodyBytes(c, r)) == Some(RenderBody(c, r))
    ensures ParseDocument(RenderBody(c, r)) == if ReceiptDepth(r) <= 124 then Some(ToDocument(c, r)) else None
  {
    hide ToDocument, Depth, WellFormed, Print, ParseDocument, Utf8.Encode, Utf8.Decode;
    Utf8.DecodeEncode(RenderBody(c, r));
    DocumentDepth(c, r);
    DocumentRoundTrip(ToDocument(c, r), Pretty);
  }
}
