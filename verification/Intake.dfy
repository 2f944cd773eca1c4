/** The body of a create request: which JSON values are accepted and as what, and
    what acceptance is worth later, when the statement is signed (src/api.rs). */
module Intake {
  import opened Basics
  import opened Text
  import opened Hex
  import opened Json
  import opened Records
  import opened JournalDecoding
  import opened Ingest
  import opened Statements
  import Utf8

  // ---- Parsing --------------------------------------------------------------

  const MAX_LENGTH := 512

  /** `req_str`: trimmed and not blank. */
  function RequiredText(v: Json, key: string): Option<string> {
    var s :- AsStr(Member(v, key));
    if Trim(s) == "" then None else Some(Trim(s))
  }

  /** `opt_str`; the length is counted in bytes. */
  function OptionalShortText(v: Json, key: string): Option<Option<string>> {
    match Member(v, key)
    case None => Some(None)
    case Some(Null) => Some(None)
    case Some(Str(s)) =>
      if Trim(s) == "" || |Utf8.Encode(Trim(s))| > MAX_LENGTH then None else Some(Some(Trim(s)))
    case _ => None
  }

  /** `char::is_control`: the Unicode category Cc. */
  predicate IsControl(c: char) {
    c as int < 0x20 || 0x7F <= c as int < 0xA0
  }

  predicate IsPassportId(s: string) {
    s != "" && |Utf8.Encode(s)| <= MAX_LENGTH && forall c <- s :: !IsControl(c)
  }

  function RequiredHash(v: Json, key: string): Option<Hash> {
    var s :- RequiredText(v, key);
    HashFromHex(s)
  }

  /** `parse_create_request`. */
  function ReadRequest(v: Json): Option<Request> {
    var passportId :- RequiredText(v, "passport_id");
    if !IsPassportId(passportId) then None else
    var stateHash :- RequiredHash(v, "state_hash");
    var logHead :- RequiredHash(v, "log_head");
    var submitter :- OptionalShortText(v, "submitter");
    var stateSize :- Optional(v, "state_size", AsU64);
    Some(Request(passportId, stateHash, logHead, submitter, stateSize))
  }

  /** From the text of the request's body. */
  function ReadRequestBody(body: string): Option<Request> {
    var v :- ParseDocument(body);
    ReadRequest(v)
  }

  // ---- What is accepted -----------------------------------------------------

  /** The text with white space around it. */
  ghost predicate Surrounds(x: string, s: string) {
    Trimmed(s) && exists w, u :: AllWhite(w) && AllWhite(u) && x == w + (s + u)
  }

  ghost predicate IsSpacedText(v: Option<Json>, s: string) {
    s != "" && exists x :: v == Some(Str(x)) && Surrounds(x, s)
  }

  ghost predicate IsSpacedHash(v: Option<Json>, h: Hash) {
    exists s :: IsSpacedText(v, s) && LowerAll(s) == HexEncode(h)
  }

  ghost predicate MayBeSubmitter(v: Option<Json>, o: Option<string>) {
    if o.None? then Missing(v) else IsSpacedText(v, o.value) && |Utf8.Encode(o.value)| <= 512
  }

  /** The value asks for this. */
  ghost predicate HoldsRequest(v: Json, req: Request) {
    && IsSpacedText(Member(v, "passport_id"), req.passportId)
    && |Utf8.Encode(req.passportId)| <= 512
    && (forall c <- req.passportId :: c as int >= 0x20 && !(0x7F <= c as int <= 0x9F))
    && IsSpacedHash(Member(v, "state_hash"), req.stateHash)
    && IsSpacedHash(Member(v, "log_head"), req.logHead)
    && MayBeSubmitter(Member(v, "submitter"), req.submitter)
    && MayBeNumber(Member(v, "state_size"), req.stateSize)
  }

  lemma SpacedMember(v: Json, key: string, s: string)
    ensures RequiredText(v, key) == Some(s) <==> IsSpacedText(Member(v, key), s)
  {
    hide Member, Trim, Trimmed, AllWhite;
    var m := Member(v, key);
    if m.Some? && m.value.Str? { TrimExactly(m.value.s, s); }
  }

  lemma HashIsSpaced(v: Json, key: string, h: Hash)
    ensures RequiredHash(v, key) == Some(h) <==> IsSpacedHash(Member(v, key), h)
  {
    hide RequiredText, IsSpacedText, HashFromHex, LowerAll, HexEncode;
    if RequiredHash(v, key) == Some(h) {
      var s := RequiredText(v, key).value;
      SpacedMember(v, key, s);
      HashExactly(s, h);
    }
    forall s | IsSpacedText(Member(v, key), s) && LowerAll(s) == HexEncode(h) ensures RequiredHash(v, key) == Some(h) {
      SpacedMember(v, key, s);
      HashExactly(s, h);
    }
  }

  lemma SubmitterMember(v: Json, o: Option<string>)
    ensures OptionalShortText(v, "submitter") == Some(o) <==> MayBeSubmitter(Member(v, "submitter"), o)
  {
    hide Member, Trim, Trimmed, AllWhite, Utf8.Encode;
    var m := Member(v, "submitter");
    if o.Some? && m.Some? && m.value.Str? { TrimExactly(m.value.s, o.value); }
  }

  /** A body is accepted exactly when it asks for the request: each required text and
      hash there and, but for white space, what it should be, each optional member
      absent, null or of its kind. */
  lemma RequestExactly(v: Json, req: Request)
    ensures ReadRequest(v) == Some(req) <==> HoldsRequest(v, req)
  {
    hide Member, RequiredText, RequiredHash, OptionalShortText, Optional, IsSpacedHash, MayBeSubmitter, MayBeNumber;
    hide Utf8.Encode;
    SpacedMember(v, "passport_id", req.passportId);
    HashIsSpaced(v, "state_hash", req.stateHash);
    HashIsSpaced(v, "log_head", req.logHead);
    SubmitterMember(v, req.submitter);
    OptionalNumber(v, "state_size", req.stateSize);
    if IsSpacedText(Member(v, "passport_id"), req.passportId) { assert req.passportId != ""; }
  }

  // ---- What acceptance is worth ---------------------------------------------

  /** The id of any number is short. */
  lemma IdFits(n: u64)
    ensures FitsLength(SnapshotIdOf(n))
  {
    hide Pad, Utf8.Encode;
    IdIsAscii(n);
    AsciiLength(SnapshotIdOf(n));
    DecimalLength(n, 20);
    assert Pow10(20) == 100_000_000_000_000_000_000 by { TwentyDigits(); }
    PadIsShort(n);
  }

  lemma TwentyDigits()
    ensures Pow10(20) == 100_000_000_000_000_000_000
  {
    assert Pow10(5) == 100_000;
    assert Pow10(10) == 10 * (10 * (10 * (10 * (10 * Pow10(5)))));
    assert Pow10(15) == 10 * (10 * (10 * (10 * (10 * Pow10(10)))));
    assert Pow10(20) == 10 * (10 * (10 * (10 * (10 * Pow10(15)))));
  }

  lemma PadIsShort(n: u64)
    requires |Decimal(n)| <= 20
    ensures |Pad(n, 12)| <= 20
  {
    hide Decimal;
  }

  lemma IdIsAscii(n: u64)
    ensures forall c <- SnapshotIdOf(n) :: c as int < 0x80
  {
    hide Pad;
    var p := Pad(n, 12);
    forall c | c in SnapshotIdOf(n) ensures c as int < 0x80 {
      if c in p {
        var i :| 0 <= i < |p| && p[i] == c;
        assert IsDigit(p[i]);
      }
    }
  }

  /** What is notarized of an accepted request always has a statement a verifier can
      read back, so its signature binds every field, as long as the log's name is
      not longer than any memory. */
  lemma AcceptedIsRepresentable(c: Service, key: Key, body: string, n: u64, now: i64, reply: LogReply)
    requires ReadRequestBody(body).Some?
    requires Notarized(c, key, Reserved(ReadRequestBody(body).value, n, now), reply).Some?
    ensures var req, r := ReadRequestBody(body).value,
              Notarized(c, key, Reserved(ReadRequestBody(body).value, n, now), reply).value;
            (r.anchoring.logId.Some? ==> FitsLength(r.anchoring.logId.value)) ==>
              && ReadStatement(Statement(r)).Some?
              && var s := ReadStatement(Statement(r)).value;
              && s.service == "unidpp-archive" && s.snapshotId == "s-" + Pad(n, 12) && s.seqNo == n && s.asOf == now
              && s.passportId == req.passportId && s.stateHash == req.stateHash && s.logHead == req.logHead
  {
    hide ParseDocument, Notarized, Reserved, Statement, ReadStatement, Pad, Outcome, RequiredHash, OptionalShortText;
    hide RequiredText, Optional, Core, Utf8.Encode;
    NotarizedPreserves(c, key, ReadRequestBody(body).value, n, now, reply);
    var r := Notarized(c, key, Reserved(ReadRequestBody(body).value, n, now), reply).value;
    IdFits(n);
    if r.anchoring.logId.Some? ==> FitsLength(r.anchoring.logId.value) { StatementReads(r); }
  }
}
