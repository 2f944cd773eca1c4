/** Receipts as a log sends them: what the service records of them, and one that
    it accepts, signs, serves and journals but can never replay, because it nests
    126 levels deep. */
module Receipts {
  import opened Basics
  import opened Text
  import opened Hex
  import opened Json
  import opened JsonRoundTrip
  import opened Records
  import opened JournalLines
  import opened Ingest
  import Timestamps

  // ---- A log's receipt ------------------------------------------------------

  function TreeHeadMembers(s: AnchorSummary): seq<Field> {
    [Field("tree_size", Num(s.treeSize)), Field("root", Str(HashHex(s.root)))]
  }

  /** How a receipt is numbered: by a number, whatever receipt id may stand beside
      it, or by a receipt id, if what stands beside it is no number. */
  datatype Numbering =
    | ByNumber
    | ByNumberBeside(id: Json)
    | ById
    | ByIdBeside(n: Json)

  function NumberMembers(n: u64, how: Numbering): seq<Field> {
    match how
    case ByNumber => [Field("seq", Num(n))]
    case ByNumberBeside(id) => [Field("seq", Num(n)), Field("receipt_id", id)]
    case ById => [Field("receipt_id", Str(Decimal(n)))]
    case ByIdBeside(other) => [Field("receipt_id", Str(Decimal(n))), Field("seq", other)]
  }

  predicate Numbers(how: Numbering) {
    how.ByIdBeside? ==> !how.n.Num?
  }

  function ReceiptMembers(s: AnchorSummary, proof: Json, how: Numbering): seq<Field> {
    [ Field("log_id", Str(s.logId)),
      Field("logged_at", Str(Timestamps.Print(s.loggedAt))),
      Field("tree_head", Object(TreeHeadMembers(s))),
      Field("proof", proof) ] + NumberMembers(s.receiptSeq, how)
  }

  function Receipt(s: AnchorSummary, proof: Json, how: Numbering): Json {
    Object(ReceiptMembers(s, proof, how))
  }

  lemma ReceiptKeys(s: AnchorSummary, proof: Json, how: Numbering)
    ensures DistinctKeys(ReceiptMembers(s, proof, how)) && DistinctKeys(TreeHeadMembers(s))
  {
    hide Object, Timestamps.Print, HashHex, Decimal;
  }

  /** A member that is not listed is not found. */
  lemma NoMember(members: seq<Field>, key: string)
    requires forall m <- members :: m.key != key
    ensures Member(Object(members), key) == None
  {
    InsertAllLookup([], members, key);
    LastOfAbsent(members, key);
  }

  lemma SequenceReads(s: AnchorSummary, proof: Json, how: Numbering)
    requires Numbers(how)
    ensures var v := Receipt(s, proof, how);
            (if AsU64(Member(v, "seq")).Some? then AsU64(Member(v, "seq")) else AsReceiptId(Member(v, "receipt_id")))
            == Some(s.receiptSeq)
  {
    hide Object, Timestamps.Print, Member, Decimal, ParseU64;
    ReceiptKeys(s, proof, how);
    var m := ReceiptMembers(s, proof, how);
    hide DistinctKeys;
    match how {
      case ByNumber => MemberIs(m, 4, "seq", Num(s.receiptSeq));
      case ByNumberBeside(_) => MemberIs(m, 4, "seq", Num(s.receiptSeq));
      case ById =>
        MemberIs(m, 4, "receipt_id", Str(Decimal(s.receiptSeq)));
        forall f | f in m ensures f.key != "seq" {}
        NoMember(m, "seq");
        ParseU64OfDecimal(s.receiptSeq);
      case ByIdBeside(other) =>
        MemberIs(m, 4, "receipt_id", Str(Decimal(s.receiptSeq)));
        MemberIs(m, 5, "seq", other);
        ParseU64OfDecimal(s.receiptSeq);
    }
  }

  lemma ReceiptMembersRead(s: AnchorSummary, proof: Json, how: Numbering)
    ensures var v := Receipt(s, proof, how);
            && v.Obj? && AsStr(Member(v, "log_id")) == Some(s.logId)
            && Member(v, "logged_at") == Some(Str(Timestamps.Print(s.loggedAt)))
            && Member(v, "tree_head") == Some(Object(TreeHeadMembers(s)))
  {
    hide Object, Timestamps.Print, Member, Decimal;
    ReceiptKeys(s, proof, how);
    hide DistinctKeys, NumberMembers;
    var m := ReceiptMembers(s, proof, how);
    ObjectIsObj(m);
    MemberIs(m, 0, "log_id", Str(s.logId));
    MemberIs(m, 1, "logged_at", Str(Timestamps.Print(s.loggedAt)));
    MemberIs(m, 2, "tree_head", Object(TreeHeadMembers(s)));
  }

  lemma TreeHeadReads(s: AnchorSummary)
    ensures var v := Object(TreeHeadMembers(s));
            v.Obj? && AsU64(Member(v, "tree_size")) == Some(s.treeSize) && AsHash(Member(v, "root")) == Some(s.root)
  {
    hide Object, Member, HashHex, HashFromHex;
    ReceiptKeys(s, Null, ByNumber);
    var h := TreeHeadMembers(s);
    ObjectIsObj(h);
    MemberIs(h, 0, "tree_size", Num(s.treeSize));
    MemberIs(h, 1, "root", Str(HashHex(s.root)));
    HashRoundTrip(s.root);
  }

  /** The summary of a log's receipt is what the log put into it, whatever proof
      it adds and however it numbers it, exactly when the log has a name and its
      instant prints. */
  lemma SummaryReads(s: AnchorSummary, proof: Json, how: Numbering)
    requires Numbers(how)
    ensures SummaryFromReceipt(Receipt(s, proof, how))
         == if s.logId != "" && Timestamps.Printable(s.loggedAt) then Some(s) else None
  {
    hide Receipt, Member, Object, AsU64, AsHash, AsReceiptId, Timestamps.Print, Timestamps.Parse, Timestamps.Printable;
    ReceiptMembersRead(s, proof, how);
    SequenceReads(s, proof, how);
    TreeHeadReads(s);
    Timestamps.PrintParse(s.loggedAt);
  }

  // ---- What is recorded of it -----------------------------------------------

  /** The parts a log may choose freely. */
  ghost predicate FreeParts(proof: Json, how: Numbering, d: nat) {
    && Numbers(how) && WellFormed(proof) && Depth(proof) <= d
    && (how.ByNumberBeside? ==> WellFormed(how.id) && Depth(how.id) <= d)
    && (how.ByIdBeside? ==> WellFormed(how.n) && Depth(how.n) <= d)
  }

  lemma ReceiptDepthIs(s: AnchorSummary, proof: Json, how: Numbering, d: nat)
    requires d >= 1 && FreeParts(proof, how, d)
    ensures Depth(Receipt(s, proof, how)) <= 1 + d && WellFormed(Receipt(s, proof, how))
  {
    hide Object, Timestamps.Print, HashHex, Depth, WellFormed, Decimal;
    ReceiptKeys(s, proof, how);
    var m, h := ReceiptMembers(s, proof, how), TreeHeadMembers(s);
    assert forall i :: 0 <= i < |h| ==> Scalar(h[i].value);
    FlatObject(h);
    forall f | f in m ensures WellFormed(f.value) && Depth(f.value) <= d {
      if f != m[2] && f != m[3] && Scalar(f.value) { ScalarIsFlat(f.value); }
    }
    ObjectDepth(m, d);
    ObjectWellFormed(m);
  }

  /** The anchored outcome keeps each of the log's values in its own field, the
      receipt as it came and the hash the log was sent; or the reply is one the
      service cannot use, and the outcome says why and nothing else. */
  lemma AnswerIsRecorded(s: AnchorSummary, proof: Json, how: Numbering, style: Style, complaint: string, h: Hash)
    requires FreeParts(proof, how, 126)
    ensures var receipt := Receipt(s, proof, how);
            var a := Outcome(Answered(Print(receipt, style, 0), complaint), h);
            if s.logId != "" && Timestamps.Printable(s.loggedAt) then
              && a.status == Anchored && a.reason == None
              && a.logId == Some(s.logId) && a.receiptSeq == Some(s.receiptSeq) && a.treeSize == Some(s.treeSize)
              && a.root == Some(s.root) && a.loggedAt == Some(s.loggedAt)
              && a.commitment == Some(h) && a.receipt == Some(receipt)
            else
              Nothing(a, complaint)
  {
    hide Receipt, Print, Depth, WellFormed, ParseDocument, SummaryFromReceipt, Timestamps.Printable, FreeParts;
    SummaryReads(s, proof, how) by { FreeNumbers(proof, how, 126); }
    ReceiptDepthIs(s, proof, how, 126);
    DocumentRoundTrip(Receipt(s, proof, how), style);
  }

  lemma FreeNumbers(proof: Json, how: Numbering, d: nat)
    requires FreeParts(proof, how, d)
    ensures Numbers(how)
  {}

  /** Not anchored, for this reason, and no more known. */
  predicate Nothing(a: Anchoring, reason: string) {
    && a.status == Unanchored && a.reason == Some(reason)
    && a.logId == None && a.receiptSeq == None && a.treeSize == None && a.root == None && a.loggedAt == None
    && a.commitment == None && a.receipt == None
  }

  /** Any reply at all: a text that is no document or has no summary leaves the
      complaint about it, a failure its own reason, and the rest is anchored. */
  lemma RepliesAreRecorded(reply: LogReply, h: Hash)
    ensures var a := Outcome(reply, h);
            match reply
            case Failed(reason) => Nothing(a, reason)
            case Answered(text, complaint) =>
              var receipt := ParseDocument(text);
              if receipt.None? || SummaryFromReceipt(receipt.value).None? then Nothing(a, complaint)
              else a.status == Anchored && a.reason == None && a.receipt == receipt && a.commitment == Some(h)
  {
    hide ParseDocument, SummaryFromReceipt;
  }

  // ---- One that is never replayed -------------------------------------------

  function Nested(n: nat): Json {
    if n == 0 then Null else Arr([Nested(n - 1)])
  }

  lemma {:induction false} NestedDepth(n: nat)
    ensures Depth(Nested(n)) == n && WellFormed(Nested(n))
  {
    if n == 0 {
    } else {
      NestedDepth(n - 1);
      assert [Nested(n - 1)][1..] == [];
      assert ItemsDepth([]) == 0;
    }
  }

  const SUMMARY := AnchorSummary("log", 0, 1, ZeroHash(), 0)

  /** A log's receipt with a proof nested `n` deep. */
  function DeepReceipt(n: nat): Json {
    Receipt(SUMMARY, Nested(n), ByNumber)
  }

  lemma DeepReceiptDepth(n: nat)
    requires n >= 2
    ensures Depth(DeepReceipt(n)) == 1 + n && WellFormed(DeepReceipt(n))
  {
    hide Object, Nested, Timestamps.Print, HashHex, Depth, WellFormed;
    ReceiptKeys(SUMMARY, Nested(n), ByNumber);
    NestedDepth(n);
    var m, h := ReceiptMembers(SUMMARY, Nested(n), ByNumber), TreeHeadMembers(SUMMARY);
    assert forall i :: 0 <= i < |h| ==> Scalar(h[i].value);
    FlatObject(h);
    forall i | 0 <= i < |m| && i != 3 ensures Flat(m[i].value) {
      if i != 2 { ScalarIsFlat(m[i].value); }
    }
    hide Flat;
    OneDeepMember(m, 3, n);
    OneDeepMember(m, 3, n - 1);
  }

  /** The answered snapshot is anchored and complete, yet its journal line does
      not decode, so no restart brings it back. */
  lemma AcceptedButNeverReplayed(c: Service, key: Key, draft: SnapshotRecord)
    requires Draftable(draft)
    ensures var r := Notarized(c, key, draft, Answered(Print(DeepReceipt(125), Compact, 0), ""));
            r.Some? ==>
              && r.value.anchoring.status.Anchored? && Complete(r.value.anchoring)
              && !Replayable(r.value) && DecodeLine(Line(r.value)) == None
  {
    hide Print, Depth, WellFormed, ParseDocument, Notarized, Draftable, SummaryFromReceipt, Commitment, Created;
    hide DigestMatches;
    hide Receipt, ToJournal, FromJournal, Journalable;
    var receipt := DeepReceipt(125);
    var reply := Answered(Print(receipt, Compact, 0), "");
    var r := Notarized(c, key, draft, reply);
    DeepReceiptDepth(125);
    SummaryReads(SUMMARY, Nested(125), ByNumber);
    DocumentRoundTrip(receipt, Compact);
    if r.Some? {
      NotarizedIsCreated(c, key, draft, reply);
      JournalDepth(r.value);
      DocumentRoundTrip(ToJournal(r.value), Compact);
    }
  }
}
