/** Opening a store again after a crash cut an append short. */
module Reopening {
  import opened Basics
  import opened Records
  import opened JournalLines
  import opened Journal
  import opened Recovery
  import opened Store

  /** How far an append got: so many bytes of its journal line, or the whole
      line and so many bytes of its snapshot file. */
  datatype Cut = DuringLine(k: nat) | DuringFile(m: nat)

  predicate Possible(c: Service, p: Paths, r: SnapshotRecord, cut: Cut) {
    match cut
    case DuringLine(k) => p.journaled && k <= |LineBytes(r)|
    case DuringFile(m) => p.filed && m <= |BodyBytes(c, r)|
  }

  function CutAppend(c: Service, p: Paths, d: Disk, r: SnapshotRecord, cut: Cut): Disk
    requires p.journaled ==> d.journal.Some?
    requires Possible(c, p, r, cut)
  {
    match cut
    case DuringLine(k) => d.(journal := Some(d.journal.value + LineBytes(r)[..k]))
    case DuringFile(m) =>
      Disk(if p.journaled then Some(d.journal.value + LineBytes(r)) else d.journal,
           d.files[r.snapshotId := BodyBytes(c, r)[..m]])
  }

  /** What the journal holds, as far as it reads. */
  function Survivors(c: Service, d: Disk): Option<seq<SnapshotRecord>> {
    if d.journal.None? then Some([]) else Replay(c, d.journal.value)
  }

  lemma OpenYieldsSurvivors(c: Service, p: Paths, d: Disk)
    requires p.journaled
    ensures Open(c, p, d).records.Some? ==> Open(c, p, d).records == Survivors(c, d)
    ensures Survivors(c, Open(c, p, d).disk) == Survivors(c, d)
  {
    hide Replay, Verify;
    ReplayNothing(c);
  }

  /** How many bytes of the line were written. */
  function Written(r: SnapshotRecord, cut: Cut): nat {
    match cut case DuringLine(k) => k case DuringFile(_) => |LineBytes(r)|
  }

  /** The exact result of a cut append, on the journal side. */
  function Surviving(c: Service, b: bytes, rs: seq<SnapshotRecord>, r: SnapshotRecord,
      cut: Cut): Option<seq<SnapshotRecord>> {
    AfterPart(c, b, rs, r, Written(r, cut))
  }

  lemma CutSurvivors(c: Service, p: Paths, d: Disk, rs: seq<SnapshotRecord>, r: SnapshotRecord, cut: Cut)
    requires p.journaled && d.journal.Some? && Replay(c, d.journal.value) == Some(rs)
    requires ReceiptWellFormed(r) && Possible(c, p, r, cut)
    ensures Survivors(c, CutAppend(c, p, d, r, cut)) == Surviving(c, d.journal.value, rs, r, cut)
  {
    hide Replay, AfterPart, LineBytes, BodyBytes;
    CrashDuringAppend(c, d.journal.value, rs, r, Written(r, cut));
    assert LineBytes(r)[..|LineBytes(r)|] == LineBytes(r);
  }

  /** A record as the service makes it either survives itself or costs at most the
      one before it. */
  lemma SurvivingCases(c: Service, b: bytes, rs: seq<SnapshotRecord>, r: SnapshotRecord, cut: Cut)
    requires ReceiptWellFormed(r) && WellShaped(r.anchoring) && DigestMatches(c, r)
    ensures var all := Surviving(c, b, rs, r, cut);
            all == None || all == Some(rs) || all == Some(rs + [r]) || (rs != [] && all == Some(rs[..|rs| - 1]))
    ensures Surviving(c, b, rs, r, cut) == Some(rs + [r]) ==>
              Replayable(r) && r.seqNo == |rs| && Written(r, cut) + 1 >= |LineBytes(r)|
  {
    hide WellShaped, DigestMatches, Replayable, WholeLine, LineBytes, Lines, Terminated, InsideCharacter;
    ShapedWholeLine(c, rs, r);
    assert |rs + [r]| == |rs| + 1;
  }

  predicate FileContradicts(c: Service, files: Files, r: SnapshotRecord) {
    r.snapshotId in files && files[r.snapshotId] != BodyBytes(c, r)
  }

  /** A surviving record whose snapshot file is short or stale is refused; an
      absent file is written again. */
  function Recovered(c: Service, p: Paths, d: Disk, rs: seq<SnapshotRecord>, r: SnapshotRecord,
      cut: Cut): Option<seq<SnapshotRecord>>
    requires p.journaled && d.journal.Some? && Possible(c, p, r, cut)
  {
    var all := Surviving(c, d.journal.value, rs, r, cut);
    if p.filed && all == Some(rs + [r]) && FileContradicts(c, CutAppend(c, p, d, r, cut).files, r) then None else all
  }

  /** No two of these records claim one file. */
  predicate DistinctIds(rs: seq<SnapshotRecord>) {
    forall s <- rs, t <- rs :: s.snapshotId == t.snapshotId ==> s == t
  }

  /** Crash recovery. Whatever journal the store was opened with, a crash anywhere
      in the next append leaves a disk that opens again exactly when the journal
      still reads and no surviving record's file contradicts it. It then holds
      what `AfterPart` says, and every file is its record's rendered body. */
  lemma CrashRecovery(c: Service, p: Paths, d: Disk, rs: seq<SnapshotRecord>, r: SnapshotRecord, cut: Cut)
    requires p.journaled && d.journal.Some? && Replay(c, d.journal.value) == Some(rs)
        && (p.filed ==> Materialized(c, d.files, rs))
    requires DistinctIds(rs + [r]) && r !in rs
    requires ReceiptWellFormed(r) && WellShaped(r.anchoring) && DigestMatches(c, r) && Possible(c, p, r, cut)
    ensures var o := Open(c, p, CutAppend(c, p, d, r, cut));
            && o.records == Recovered(c, p, d, rs, r, cut)
            && (p.filed && o.records.Some? ==> Materialized(c, o.disk.files, o.records.value))
  {
    hide Replay, DigestMatches, WellShaped, Surviving, LineBytes, BodyBytes, Verify, Materialized, Consistent, Grown;
    hide DistinctIds, FileContradicts, CutAppend;
    var e := CutAppend(c, p, d, r, cut);
    CutSurvivors(c, p, d, rs, r, cut);
    SurvivingCases(c, d.journal.value, rs, r, cut);
    assert e.journal.Some? by { CutKeepsJournal(c, p, d, r, cut); }
    if p.filed && Survivors(c, e).Some? {
      var all := Survivors(c, e).value;
      VerifyExactly(c, e.files, all);
      CutConsistent(c, p, d, rs, r, cut, all);
    }
  }

  lemma CutKeepsJournal(c: Service, p: Paths, d: Disk, r: SnapshotRecord, cut: Cut)
    requires p.journaled && d.journal.Some? && Possible(c, p, r, cut)
    ensures CutAppend(c, p, d, r, cut).journal.Some?
  {
    hide LineBytes, BodyBytes;
  }

  lemma CutConsistent(c: Service, p: Paths, d: Disk, rs: seq<SnapshotRecord>, r: SnapshotRecord, cut: Cut,
      all: seq<SnapshotRecord>)
    requires p.journaled && d.journal.Some? && Materialized(c, d.files, rs) && Possible(c, p, r, cut)
    requires DistinctIds(rs + [r]) && r !in rs
    requires all == rs + [r] || all == rs || (rs != [] && all == rs[..|rs| - 1])
    ensures var files := CutAppend(c, p, d, r, cut).files;
            Consistent(c, files, all) <==> all == rs + [r] ==> !FileContradicts(c, files, r)
  {
    hide BodyBytes, LineBytes;
    var files := CutAppend(c, p, d, r, cut).files;
    assert r in rs + [r] && forall s <- rs :: s in rs + [r];
    assert forall s <- all :: s in rs || s == r;
    assert forall s <- rs :: s.snapshotId != r.snapshotId;
    assert |all| <= |rs| ==> r !in all;
  }

  // ---- An open that does not finish -----------------------------------------

  /** How far the open got after the replay: so many records' files done, and so
      many bytes of the next one's missing file. */
  datatype Progress = Progress(done: nat, part: Option<nat>)

  predicate CanStop(c: Service, p: Paths, d: Disk, g: Progress) {
    var rs := Replayed(c, p, d);
    && (p.filed || g == Progress(0, None)) && rs.Some? && g.done <= |rs.value|
    && Verify(c, d.files, rs.value[..g.done]).ok
    && (g.part.Some? ==>
          && g.done < |rs.value|
          && rs.value[g.done].snapshotId !in Verify(c, d.files, rs.value[..g.done]).files
          && g.part.value <= |BodyBytes(c, rs.value[g.done])|)
  }

  /** The disk after a stop inside an open. */
  function StoppedOpen(c: Service, p: Paths, d: Disk, g: Progress): Disk
    requires CanStop(c, p, d, g)
  {
    var rs := Replayed(c, p, d).value;
    var files := Verify(c, d.files, rs[..g.done]).files;
    Disk(OpenedJournal(p, d),
         if g.part.None? then files else files[rs[g.done].snapshotId := BodyBytes(c, rs[g.done])[..g.part.value]])
  }

  /** Each record done has its file, no file that was there has changed, and all that
      was added are those files and the begun one. */
  ghost predicate PartlyFiled(c: Service, before: Files, after: Files, done: seq<SnapshotRecord>,
      begun: Option<(SnapshotRecord, nat)>)
  {
    && Materialized(c, after, done)
    && (forall id <- before :: id in after && after[id] == before[id])
    && (begun.Some? ==>
          var (r, n) := begun.value;
          r.snapshotId in after && n <= |BodyBytes(c, r)| && after[r.snapshotId] == BodyBytes(c, r)[..n])
    && (forall id <- after ::
          id in before || (exists r <- done :: r.snapshotId == id) || (begun.Some? && id == begun.value.0.snapshotId))
  }

  function Begun(rs: seq<SnapshotRecord>, g: Progress): Option<(SnapshotRecord, nat)>
    requires g.part.Some? ==> g.done < |rs|
  {
    if g.part.None? then None else Some((rs[g.done], g.part.value))
  }

  /** The disk after such a stop. */
  lemma StoppedOpenLeaves(c: Service, p: Paths, d: Disk, g: Progress)
    requires CanStop(c, p, d, g) && p.filed
    ensures var e, rs := StoppedOpen(c, p, d, g), Replayed(c, p, d).value;
            && PartlyFiled(c, d.files, e.files, rs[..g.done], Begun(rs, g))
            && (d.journal.Some? ==> e.journal == d.journal)
  {
    hide Replay, Verify, BodyBytes, Consistent;
    VerifyExactly(c, d.files, Replayed(c, p, d).value[..g.done]);
  }

  lemma {:induction false} VerifyInParts(c: Service, files: Files, a: seq<SnapshotRecord>, b: seq<SnapshotRecord>)
    ensures Verify(c, files, a + b) == if Verify(c, files, a).ok then Verify(c, Verify(c, files, a).files, b)
        else Verify(c, files, a)
    decreases |a|
  {
    hide Verify, BodyBytes;
    VerifyStep(c, files, a);
    if a == [] {
      assert a + b == b;
    } else {
      VerifyStep(c, files, a + b);
      assert (a + b)[1..] == a[1..] + b;
      var id, body := a[0].snapshotId, BodyBytes(c, a[0]);
      if id !in files {
        VerifyInParts(c, files[id := body], a[1..], b);
      } else if files[id] == body {
        VerifyInParts(c, files, a[1..], b);
      }
    }
  }

  /** A repair that starts over finds what was already in place. */
  lemma VerifyAgain(c: Service, files: Files, a: seq<SnapshotRecord>, b: seq<SnapshotRecord>)
    requires Materialized(c, files, a)
    ensures Verify(c, files, a + b) == Verify(c, files, b)
  {
    hide Verify, Materialized;
    VerifyKeepsMaterialized(c, files, a);
    VerifyInParts(c, files, a, b);
  }

  /** A stop inside an open, exactly: the next open comes to the same end as an
      undisturbed one, unless a file was left short; then it fails, and so does
      every later one. */
  lemma StoppedOpenRecovers(c: Service, p: Paths, d: Disk, g: Progress)
    requires CanStop(c, p, d, g)
    ensures var again := Open(c, p, StoppedOpen(c, p, d, g));
            if g.part.Some? && g.part.value < |BodyBytes(c, Replayed(c, p, d).value[g.done])| then again.records == None
            else again == Open(c, p, d)
    ensures Survivors(c, StoppedOpen(c, p, d, g)) == Survivors(c, d) || !p.journaled
  {
    hide Replay, Verify, BodyBytes, Materialized, Consistent, Grown;
    var rs := Replayed(c, p, d).value;
    var e := StoppedOpen(c, p, d, g);
    ReplayNothing(c);
    if !p.filed {
      assert rs[..0] == [];
      VerifyStep(c, d.files, []);
    }
    assert Replayed(c, p, e) == Some(rs) && OpenedJournal(p, e) == OpenedJournal(p, d);
    StoppedFiles(c, d.files, rs, g.done, g.part);
  }

  lemma StoppedFiles(c: Service, files: Files, rs: seq<SnapshotRecord>, n: nat, part: Option<nat>)
    requires n <= |rs| && Verify(c, files, rs[..n]).ok
    requires part.Some? ==>
               && n < |rs| && rs[n].snapshotId !in Verify(c, files, rs[..n]).files
               && part.value <= |BodyBytes(c, rs[n])|
    ensures var left := Verify(c, files, rs[..n]).files;
            if part.None? then Verify(c, left, rs) == Verify(c, files, rs)
            else
              var v := Verify(c, left[rs[n].snapshotId := BodyBytes(c, rs[n])[..part.value]], rs);
              if part.value < |BodyBytes(c, rs[n])| then !v.ok else v == Verify(c, files, rs)
  {
    hide Verify, BodyBytes, Consistent, Grown;
    var a, b := rs[..n], rs[n..];
    var left := Verify(c, files, a).files;
    assert rs == a + b;
    VerifyExactly(c, files, a);
    VerifyInParts(c, files, a, b);
    if part.None? {
      VerifyAgain(c, left, a, b);
    } else {
      var id, body := rs[n].snapshotId, BodyBytes(c, rs[n]);
      var short := left[id := body[..part.value]];
      assert Materialized(c, short, a);
      VerifyAgain(c, short, a, b);
      VerifyStep(c, short, b);
      VerifyStep(c, left, b);
      assert b[0] == rs[n] && body[..|body|] == body;
    }
  }
}
