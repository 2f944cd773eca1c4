/** The statement a notary signs, read as a verifier reads it: by the published
    recipe, field by field off the bytes (src/api.rs, src/model.rs). */
module Statements {
  import opened Basics
  import opened Text
  import opened Hex
  import opened Json
  import opened Canonical
  import opened Records
  import opened Documents
  import Utf8

  // ---- Reading the parts ----------------------------------------------------

  /** The number a run of bytes denotes, most significant first. */
  function Number(b: bytes): nat {
    if b == [] then 0 else Number(b[..|b| - 1]) * 256 + b[|b| - 1] as int
  }

  lemma {:induction false} NumberBound(b: bytes)
    ensures Number(b) < Pow256(|b|)
  {
    if b == [] {
    } else {
      NumberBound(b[..|b| - 1]);
    }
  }

  lemma {:induction false} NumberOfBigEndian(n: nat, w: nat)
    requires n < Pow256(w)
    ensures Number(BigEndian(n, w)) == n
  {
    if w == 0 {
    } else {
      var head := BigEndian(n / 256, w - 1);
      LastDigit(n, Pow256(w - 1));
      NumberOfBigEndian(n / 256, w - 1);
      NumberOfSnoc(head, (n % 256) as byte);
    }
  }

  lemma LastDigit(n: nat, p: nat)
    requires n < 256 * p
    ensures n / 256 < p && n / 256 * 256 + n % 256 == n
  {}

  lemma NumberOfSnoc(b: bytes, x: byte)
    ensures Number(b + [x]) == Number(b) * 256 + x as int
  {
    assert (b + [x])[..|b|] == b;
  }

  lemma Widths()
    ensures Pow256(4) == 0x1_0000_0000 && Pow256(8) == U64_LIMIT
  {
    assert Pow256(4) == 256 * (256 * (256 * (256 * Pow256(0))));
    assert Pow256(8) == 256 * (256 * (256 * (256 * Pow256(4))));
  }

  function TakeBytes(b: bytes, w: nat): (r: Option<(bytes, bytes)>)
    ensures r.Some? ==> |r.value.0| == w
  {
    if |b| < w then None else Some((b[..w], b[w..]))
  }

  function TakeU32(b: bytes): Option<(nat, bytes)> {
    var (n, rest) :- TakeBytes(b, 4);
    Some((Number(n), rest))
  }

  function TakeU64(b: bytes): Option<(u64, bytes)> {
    var (n, rest) :- TakeBytes(b, 8);
    NumberBound(n);
    Widths();
    Some((Number(n), rest))
  }

  /** Two's complement: the upper half of the range is negative. */
  function TakeI64(b: bytes): Option<(i64, bytes)> {
    var (n, rest) :- TakeU64(b);
    Some((if n < 0x8000_0000_0000_0000 then n else n - U64_LIMIT, rest))
  }

  function TakeHash(b: bytes): Option<(Hash, bytes)> {
    var (h, rest) :- TakeBytes(b, 32);
    Some((h, rest))
  }

  /** A length, then that many bytes of UTF-8. */
  function TakeStr(b: bytes): Option<(string, bytes)> {
    var (n, more) :- TakeU64(b);
    var (e, rest) :- TakeBytes(more, n);
    var s :- Utf8.Decode(e);
    Some((s, rest))
  }

  // ---- Reading the statement ------------------------------------------------

  /** Where the transparency log put the commitment. */
  datatype Anchor = Anchor(logId: string, receiptId: u64, treeSize: u64, root: Hash)

  /** What a signature vouches for. */
  datatype Signed = Signed(service: string, snapshotId: string, seqNo: u64, passportId: string, stateHash: Hash,
      logHead: Hash, asOf: i64, anchor: Option<Anchor>)

  function TakeAnchor(b: bytes): Option<(Option<Anchor>, bytes)> {
    var (flag, b) :- TakeU32(b);
    if flag == 0 then Some((None, b))
    else if flag == 1 then
      var (logId, b) :- TakeStr(b);
      var (receiptId, b) :- TakeU64(b);
      var (treeSize, b) :- TakeU64(b);
      var (root, b) :- TakeHash(b);
      Some((Some(Anchor(logId, receiptId, treeSize, root)), b))
    else None
  }

  /** The recipe, up to the last byte. */
  function ReadStatement(b: bytes): Option<Signed> {
    var (service, b) :- TakeStr(b);
    var (snapshotId, b) :- TakeStr(b);
    var (n, b) :- TakeU64(b);
    var (passportId, b) :- TakeStr(b);
    var (stateHash, b) :- TakeHash(b);
    var (logHead, b) :- TakeHash(b);
    var (asOf, b) :- TakeI64(b);
    var (anchor, b) :- TakeAnchor(b);
    if b != [] then None
    else Some(Signed(service, snapshotId, n, passportId, stateHash, logHead, asOf, anchor))
  }

  // ---- Each part reads back -------------------------------------------------

  lemma TakesBytes(e: bytes, rest: bytes)
    ensures TakeBytes(e + rest, |e|) == Some((e, rest))
  {
    assert (e + rest)[..|e|] == e && (e + rest)[|e|..] == rest;
  }

  lemma TakesFlag(flag: nat, rest: bytes)
    requires flag <= 1
    ensures TakeU32(U32(flag) + rest) == Some((flag, rest))
  {
    hide BigEndian, Pow256;
    TakesBytes(U32(flag), rest);
    Widths();
    NumberOfBigEndian(flag, 4);
  }

  lemma TakesU64(n: u64, rest: bytes)
    ensures TakeU64(U64(n) + rest) == Some((n, rest))
  {
    hide BigEndian, Pow256;
    TakesBytes(U64(n), rest);
    Widths();
    NumberOfBigEndian(n, 8);
  }

  lemma TakesI64(n: i64, rest: bytes)
    ensures TakeI64(I64(n) + rest) == Some((n, rest))
  {
    hide BigEndian, TakeU64;
    TakesU64(if n >= 0 then n else n + U64_LIMIT, rest);
  }

  lemma TakesHash(h: Hash, rest: bytes)
    ensures TakeHash(h + rest) == Some((h, rest))
  {
    TakesBytes(h, rest);
  }

  predicate FitsLength(s: string) {
    |Utf8.Encode(s)| < U64_LIMIT
  }

  lemma TakesStr(s: string, rest: bytes)
    requires FitsLength(s)
    ensures TakeStr(Prefixed(s) + rest) == Some((s, rest))
  {
    hide BigEndian, TakeU64, TakeBytes, Utf8.Encode, Utf8.Decode;
    var e := Utf8.Encode(s);
    Assoc(U64(|e|), e, rest);
    TakesU64(|e|, e + rest);
    TakesBytes(e, rest);
    Utf8.DecodeEncode(s);
  }

  // ---- The statement reads back ---------------------------------------------

  /** The strings are short enough for their length field. */
  predicate Representable(r: SnapshotRecord) {
    && FitsLength(r.snapshotId) && FitsLength(r.passportId)
    && (r.anchoring.status.Anchored? && r.anchoring.logId.Some? ==> FitsLength(r.anchoring.logId.value))
  }

  /** The anchor of an outcome; a missing part counts as empty or zero. */
  function AnchorOf(a: Anchoring): Option<Anchor> {
    match a.status
    case Unanchored => None
    case Anchored => Some(Anchor(if a.logId.Some? then a.logId.value else "",
                                 if a.receiptSeq.Some? then a.receiptSeq.value else 0,
                                 if a.treeSize.Some? then a.treeSize.value else 0,
                                 if a.root.Some? then a.root.value else seq(32, _ => 0)))
  }

  function SignedFields(r: SnapshotRecord): Signed {
    Signed("unidpp-archive", r.snapshotId, r.seqNo, r.passportId, r.stateHash, r.logHead, r.notarizedAt,
           AnchorOf(r.anchoring))
  }

  lemma TakesOutcome(a: Anchoring)
    requires a.status.Anchored? && a.logId.Some? ==> FitsLength(a.logId.value)
    ensures TakeAnchor(OutcomeBytes(a)) == Some((AnchorOf(a), []))
  {
    hide U32, U64, Prefixed, TakeU32, TakeU64, TakeStr, TakeHash, FitsLength;
    match a.status {
      case Unanchored =>
        TakesFlag(0, []);
        assert U32(0) + [] == U32(0);
      case Anchored =>
        var logId, n, size, root :=
          OrElse(a.logId, ""), OrElse(a.receiptSeq, 0), OrElse(a.treeSize, 0), OrElse(a.root, ZeroHash());
        assert FitsLength("") by { EmptyFits(); }
        TakesFlag(1, Prefixed(logId) + (U64(n) + (U64(size) + root)));
        TakesStr(logId, U64(n) + (U64(size) + root));
        TakesU64(n, U64(size) + root);
        TakesU64(size, root);
        TakesHash(root, []);
        assert root + [] == root;
    }
  }

  lemma EmptyFits()
    ensures FitsLength("")
  {}

  lemma ServiceFits()
    ensures FitsLength(SERVICE_ID) && SERVICE_ID == "unidpp-archive"
  {
    hide Utf8.Encode;
    AsciiLength(SERVICE_ID);
  }

  lemma {:induction false} AsciiLength(s: string)
    requires forall c <- s :: c as int < 0x80
    ensures |Utf8.Encode(s)| == |s|
  {
    if s == "" {
    } else {
      assert s[0] in s && forall c <- s[1..] :: c in s;
      AsciiLength(s[1..]);
    }
  }

  lemma CoreNests(r: SnapshotRecord, x: bytes)
    ensures Core(r) + x == Prefixed(SERVICE_ID) + (Prefixed(r.snapshotId) + (U64(r.seqNo) + (Prefixed(r.passportId)
                           + (r.stateHash + (r.logHead + (I64(r.notarizedAt) + x))))))
  {
    hide Prefixed, U64, I64;
    var a, b, n, p, t := Prefixed(SERVICE_ID), Prefixed(r.snapshotId), U64(r.seqNo), Prefixed(r.passportId),
      I64(r.notarizedAt);
    Assoc(r.logHead, t, x);
    Assoc(r.stateHash, r.logHead + t, x);
    Assoc(p, r.stateHash + (r.logHead + t), x);
    Assoc(n, p + (r.stateHash + (r.logHead + t)), x);
    Assoc(b, n + (p + (r.stateHash + (r.logHead + t))), x);
    Assoc(a, b + (n + (p + (r.stateHash + (r.logHead + t)))), x);
  }

  /** A verifier who reads the signed bytes by the recipe finds every field in its
      place: nothing more, nothing less. */
  lemma StatementReads(r: SnapshotRecord)
    requires Representable(r)
    ensures ReadStatement(Statement(r)) == Some(SignedFields(r))
  {
    hide Core, OutcomeBytes, Prefixed, U64, I64, TakeU64, TakeI64, TakeStr, TakeHash, TakeAnchor, FitsLength, AnchorOf;
    var o := OutcomeBytes(r.anchoring);
    CoreNests(r, o);
    var at := I64(r.notarizedAt) + o;
    var hashes := r.stateHash + (r.logHead + at);
    ServiceFits();
    TakesStr(SERVICE_ID, Prefixed(r.snapshotId) + (U64(r.seqNo) + (Prefixed(r.passportId) + hashes)));
    TakesStr(r.snapshotId, U64(r.seqNo) + (Prefixed(r.passportId) + hashes));
    TakesU64(r.seqNo, Prefixed(r.passportId) + hashes);
    TakesStr(r.passportId, hashes);
    TakesHash(r.stateHash, r.logHead + at);
    TakesHash(r.logHead, at);
    TakesI64(r.notarizedAt, o);
    TakesOutcome(r.anchoring);
  }

  /** The core alone, whose hash the log is asked to anchor, reads as the record
      without an anchor. */
  lemma CoreReads(r: SnapshotRecord)
    requires FitsLength(r.snapshotId) && FitsLength(r.passportId)
    ensures ReadStatement(Core(r) + [0, 0, 0, 0]) == Some(SignedFields(r).(anchor := None))
  {
    hide ReadStatement, CoreBytes, FitsLength;
    assert U32(0) == [0, 0, 0, 0] by { FourZeros(); }
    StatementReads(r.(anchoring := UnanchoredFor("")));
  }

  lemma FourZeros()
    ensures U32(0) == [0, 0, 0, 0]
  {
    assert BigEndian(0, 1) == [] + [0];
    assert BigEndian(0, 2) == BigEndian(0, 1) + [0];
  }

  /** Two records have the same signed bytes exactly when they agree on every
      committed field: a signature binds all of them and nothing else. */
  lemma StatementBindsFields(r: SnapshotRecord, s: SnapshotRecord)
    requires Representable(r) && Representable(s)
    ensures Statement(r) == Statement(s) <==> SignedFields(r) == SignedFields(s)
  {
    hide ReadStatement, Prefixed, U64, I64, U32, Representable;
    StatementReads(r);
    StatementReads(s);
  }

  // ---- What a document's signature says -------------------------------------

  /** The signed fields as a document shows them; None where one is missing or is
      of the wrong kind, or the service is another. */
  function ShownAnchor(doc: Json): Option<Option<Anchor>> {
    var status :- AsStr(At(doc, ["oais", "provenance", "anchoring", "status"]));
    if status == "unanchored" then Some(None)
    else if status == "anchored" then
      var logId :- AsStr(At(doc, ["oais", "provenance", "anchoring", "log_id"]));
      var receiptId :- AsReceiptId(At(doc, ["oais", "provenance", "anchoring", "receipt_id"]));
      var treeSize :- AsU64(At(doc, ["oais", "provenance", "anchoring", "tree_size"]));
      var root :- AsHash(At(doc, ["oais", "provenance", "anchoring", "root"]));
      Some(Some(Anchor(logId, receiptId, treeSize, root)))
    else None
  }

  function ShownStatement(doc: Json): Option<Signed> {
    var service :- AsStr(At(doc, ["service"]));
    var snapshotId :- AsStr(At(doc, ["snapshot_id"]));
    var n :- AsU64(At(doc, ["seq"]));
    var passportId :- AsStr(At(doc, ["oais", "information_package", "passport_id"]));
    var stateHash :- AsHash(At(doc, ["oais", "information_package", "state_hash"]));
    var logHead :- AsHash(At(doc, ["oais", "information_package", "log_head"]));
    var asOf :- AsInstant(At(doc, ["oais", "information_package", "as_of"]));
    var anchor :- ShownAnchor(doc);
    if service != "unidpp-archive" then None
    else Some(Signed(service, snapshotId, n, passportId, stateHash, logHead, asOf, anchor))
  }

  predicate FitStrings(s: Signed) {
    FitsLength(s.snapshotId) && FitsLength(s.passportId) && (s.anchor.Some? ==> FitsLength(s.anchor.value.logId))
  }

  function StubOutcome(anchor: Option<Anchor>): Anchoring {
    match anchor
    case None => UnanchoredFor("")
    case Some(a) => Anchoring(Anchored, None, Some(a.logId), Some(a.receiptId), Some(a.treeSize), Some(a.root),
                              None, None, None)
  }

  /** A record that would be signed as this. */
  function Stub(s: Signed): SnapshotRecord {
    SnapshotRecord(s.seqNo, s.snapshotId, s.asOf, s.passportId, s.stateHash, s.logHead, None, None,
                   StubOutcome(s.anchor), [], "", ZeroHash())
  }

  lemma StubSays(s: Signed)
    requires s.service == "unidpp-archive" && FitStrings(s)
    ensures ReadStatement(Statement(Stub(s))) == Some(s)
  {
    hide Statement, ReadStatement, FitsLength;
    StatementReads(Stub(s));
  }

  lemma {:induction false} AtSnoc(v: Json, path: seq<string>, k: string)
    ensures At(v, path + [k]) == match At(v, path) case None => None case Some(w) => Member(w, k)
    decreases path
  {
    hide Member;
    if path == [] {
      assert path + [k] == [k];
      AtOne(v, k);
    } else {
      assert (path + [k])[1..] == path[1..] + [k];
      if Member(v, path[0]).Some? { AtSnoc(Member(v, path[0]).value, path[1..], k); }
    }
  }

  lemma AtInside(doc: Json, a: string, b: string, d: string, k: string)
    ensures At(doc, [a, b, d, k]) == match At(doc, [a, b, d]) case None => None case Some(v) => Member(v, k)
  {
    AtSnoc(doc, [a, b, d], k);
    assert [a, b, d] + [k] == [a, b, d, k];
  }

  lemma RebuiltOutcome(doc: Json)
    ensures StatementFromDocument(doc)
         == match (CoreFromDocument(doc), ShownAnchor(doc))
            case (Some(core), Some(anchor)) => Some(StatementBytes(core, StubOutcome(anchor)))
            case _ => None
  {
    hide At, CoreFromDocument, U32, U64, Prefixed, AsHash, AsReceiptId, AsU64;
    AtInside(doc, "oais", "provenance", "anchoring", "status");
    AtInside(doc, "oais", "provenance", "anchoring", "log_id");
    AtInside(doc, "oais", "provenance", "anchoring", "receipt_id");
    AtInside(doc, "oais", "provenance", "anchoring", "tree_size");
    AtInside(doc, "oais", "provenance", "anchoring", "root");
  }

  lemma RebuiltCore(doc: Json)
    ensures ShownStatement(doc).Some? <==> CoreFromDocument(doc).Some? && ShownAnchor(doc).Some?
    ensures ShownStatement(doc).Some? ==>
              var s := ShownStatement(doc).value;
              s.anchor == ShownAnchor(doc).value && Core(Stub(s)) == CoreFromDocument(doc).value
  {
    hide At, CoreBytes, ShownAnchor, AsHash, AsInstant, AsU64;
  }

  /** The bytes rebuilt from a document are those of a record with what it shows. */
  lemma RebuiltFromShown(doc: Json)
    ensures StatementFromDocument(doc)
         == match ShownStatement(doc) case None => None case Some(s) => Some(Statement(Stub(s)))
  {
    hide StatementFromDocument, CoreFromDocument, ShownStatement, ShownAnchor, StatementBytes, Core;
    RebuiltOutcome(doc);
    RebuiltCore(doc);
  }

  /** Any document at all, from whomever: the bytes a verifier rebuilds from it say
      exactly what it shows, and none are rebuilt where something is missing. */
  lemma RebuiltStatementReads(doc: Json)
    requires ShownStatement(doc).Some? ==> FitStrings(ShownStatement(doc).value)
    ensures match StatementFromDocument(doc)
            case None => ShownStatement(doc) == None
            case Some(b) => ShownStatement(doc).Some? && ReadStatement(b) == ShownStatement(doc)
  {
    hide StatementFromDocument, ReadStatement, FitStrings, Statement, Stub, ShownStatement;
    RebuiltFromShown(doc);
    if ShownStatement(doc).Some? {
      ShownService(doc);
      StubSays(ShownStatement(doc).value);
    }
  }

  lemma ShownService(doc: Json)
    requires ShownStatement(doc).Some?
    ensures ShownStatement(doc).value.service == "unidpp-archive"
  {
    hide At, ShownAnchor, AsHash, AsInstant, AsU64;
  }
}
